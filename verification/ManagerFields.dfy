/** What the manager keeps of a point it is sent (WatchTower's handler.go), against what
    the collector put in: every kind of field, on either delivery path. */
module ManagerFields {
  import opened Wrappers
  import opened Decimal
  import opened Floats
  import opened Json
  import opened WalCodec

  /** A field value of the manager's event. */
  datatype Stored =
    | Text(s: string)
    | Whole(n: int)
    | Double(x: real)
    | NonFinite
    | Flag(b: bool)
    | Raw(bytes: string)

  /** A nil value has none of the five kinds, so its field is not kept. */
  function Convert(v: ProtoValue): Option<Stored> {
    match v
    case PNil => None
    case PString(s) => Some(Text(s))
    case PInt(n) => Some(Whole(n))
    case PDouble(x) => Some(Double(x))
    case PNonFinite => Some(NonFinite)
    case PBool(b) => Some(Flag(b))
    case PBytes(bytes) => Some(Raw(bytes))
  }

  /** convertDataPoint: the fields of the event. */
  function Kept(fields: map<string, ProtoValue>): map<string, Stored> {
    map name | name in fields && Convert(fields[name]).Some? :: Convert(fields[name]).value
  }

  function KeptAt(fields: map<string, ProtoValue>, name: string): Option<Stored> {
    if name in Kept(fields) then Some(Kept(fields)[name]) else None
  }

  const MODULUS: int := 0x1_0000_0000_0000_0000

  /** What is kept is what the collector meant: the same string, flag, bytes or integer;
      an unsigned integer modulo 2^64; the double or float32 nearest to the numeral;
      for any other kind a text that reads as its JSON form, or its %v text if it has
      none; for nil nothing. */
  ghost predicate Carries(v: GoValue, kept: Option<Stored>, fmt: Format) {
    match v
    case GNil => kept == None
    case GString(s) => kept == Some(Text(s))
    case GBool(b) => kept == Some(Flag(b))
    case GInt(n) => kept == Some(Whole(n))
    case GUint64(u) =>
      && kept.Some? && kept.value.Whole?
      && -MODULUS <= 2 * kept.value.n < MODULUS && (u - kept.value.n) % MODULUS == 0
    case GFloat(numeral) => kept.Some? && kept.value.Double? && IsNearest(BITS64, 1, RealValue(numeral), kept.value.x)
    case GFloat32(numeral) => kept.Some? && kept.value.Double? && IsNearest(BITS32, Least32(), RealValue(numeral), kept.value.x)
    case GNonFinite => kept == Some(NonFinite)
    case GBytes(bytes) => kept == Some(Raw(bytes))
    case GOther(json) => kept.Some? && kept.value.Text? && Parse(kept.value.s) == Some(json)
    case GTree(json) => kept.Some? && kept.value.Text? && Parse(kept.value.s) == Some(Reprint(json, fmt))
    case GUnsupported(text) => kept == Some(Text(text))
  }

  /** What a collector emits, or what the log gives back. */
  predicate Sendable(v: GoValue) {
    if v.GTree? then WellFormed(v.json) else ValidValue(v)
  }

  lemma SentCarries(v: GoValue, fmt: Format)
    requires Sendable(v) && PrintsNumerals(fmt)
    ensures Carries(v, Convert(InterfaceToValue(v, fmt)), fmt)
  {
    hide IsNearest, RealValue, Nearest64, Nearest32, Least32, Print, Parse, Reprint, WellFormed;
    match v
    case GFloat(numeral) => NearestIsNearest(RealValue(numeral));
    case GFloat32(numeral) => NearestIsNearest(RealValue(numeral));
    case GOther(json) => DocumentRoundTrip(json);
    case GTree(json) =>
      ReprintIsWellFormed(json, fmt);
      DocumentRoundTrip(Reprint(json, fmt));
    case _ =>
  }

  /** Whether a later entry has the name. */
  predicate LastOfName(fields: seq<Field>, i: nat)
    requires i < |fields|
  {
    forall j :: i < j < |fields| ==> fields[j].name != fields[i].name
  }

  lemma {:induction false} LastEntryIsSent(fields: seq<Field>, i: nat, fmt: Format)
    requires i < |fields| && LastOfName(fields, i)
    ensures fields[i].name in ProtoFields(fields, fmt)
    ensures ProtoFields(fields, fmt)[fields[i].name] == InterfaceToValue(fields[i].val, fmt)
  {
    hide InterfaceToValue;
    if i < |fields| - 1 {
      LastEntryIsSent(fields[..|fields| - 1], i, fmt);
    }
  }

  lemma {:induction false} OnlyNamesAreSent(fields: seq<Field>, name: string, fmt: Format)
    requires name in ProtoFields(fields, fmt)
    ensures exists i :: 0 <= i < |fields| && fields[i].name == name
  {
    hide InterfaceToValue;
    var n := |fields| - 1;
    if fields[n].name != name {
      OnlyNamesAreSent(fields[..n], name, fmt);
      var i :| 0 <= i < n && fields[..n][i].name == name;
      assert fields[i].name == name;
    }
  }

  /** From collector to manager: each field a point ends up with is kept as what the
      collector put in, and no other is; the time is the point's, to the millisecond. */
  lemma ManagerKeepsWhatWasCollected(p: DataPoint, fmt: Format)
    requires PrintsNumerals(fmt) && forall i :: 0 <= i < |p.fields| ==> Sendable(p.fields[i].val)
    ensures forall i :: 0 <= i < |p.fields| && LastOfName(p.fields, i) ==>
              Carries(p.fields[i].val, KeptAt(ProtoFields(p.fields, fmt), p.fields[i].name), fmt)
    ensures forall name :: name in Kept(ProtoFields(p.fields, fmt)) ==> exists i :: 0 <= i < |p.fields| && p.fields[i].name == name
    ensures 1_000_000 * UnixMilli(p.nanos) <= p.nanos < 1_000_000 * (UnixMilli(p.nanos) + 1)
  {
    var sent := ProtoFields(p.fields, fmt);
    hide ProtoFields, Carries, InterfaceToValue, Sendable, LastOfName;
    forall i | 0 <= i < |p.fields| && LastOfName(p.fields, i)
      ensures Carries(p.fields[i].val, KeptAt(sent, p.fields[i].name), fmt)
    {
      LastEntryIsSent(p.fields, i, fmt);
      SentCarries(p.fields[i].val, fmt);
    }
    forall name | name in Kept(sent) ensures exists i :: 0 <= i < |p.fields| && p.fields[i].name == name {
      OnlyNamesAreSent(p.fields, name, fmt);
    }
  }
}
