/** Entity normalisation across telemetry sources (entities.py): the canonical
    keys on which every correlation joins. Strings are ASCII. */
module Entities {
  import opened Text
  import opened Decimal

  datatype Kind = User | Host | Ip

  const USER_ALIASES: seq<string> :=
    ["TargetUserName", "userPrincipalName", "UserId", "user", "actor", "user_name", "Account", "subject_user"]
  const HOST_ALIASES: seq<string> :=
    ["WorkstationName", "computer", "ComputerName", "host", "hostname", "agent_name", "dest_host", "TargetHostName"]
  const IP_ALIASES: seq<string> :=
    ["IpAddress", "src_ip", "sourceIPAddress", "source_ip", "client_ip", "srcip", "remote_ip"]

  function AliasFields(kind: Kind): (fields: seq<string>)
    ensures forall i, j :: 0 <= i < j < |fields| ==> fields[i] != fields[j]
  {
    match kind
    case User => USER_ALIASES
    case Host => HOST_ALIASES
    case Ip => IP_ALIASES
  }

  const NOISE_USERS: set<string> :=
    {"", "-", "(none)", "system", "anonymous logon", "local service", "network service", "n/a", "null"}

  /** The name inside DOMAIN\name and name@domain. */
  function AccountPart(s: string): string {
    Before(AfterLast(s, '\\'), '@')
  }

  predicate EndsWith(s: string, c: char) {
    s != "" && s[|s| - 1] == c
  }

  predicate IsNoise(name: string) {
    name in NOISE_USERS
  }

  function NormalizeUser(s: string): string {
    var name := Lower(Strip(AccountPart(s)));
    if EndsWith(name, '$') || IsNoise(name) then "" else name
  }

  predicate LooksLikeIp(s: string) {
    var parts := Split(s, '.');
    |parts| == 4 && forall p :: p in parts ==> p != "" && AllDigits(p)
  }

  function NormalizeHost(s: string): string {
    var name := Lower(Strip(s));
    if '.' in name && !LooksLikeIp(name) then Before(name, '.') else name
  }

  function Normalize(kind: Kind, raw: string): string {
    var s := Strip(raw);
    if s == "" then ""
    else match kind
      case User => NormalizeUser(s)
      case Host => NormalizeHost(s)
      case Ip => Lower(s)
  }

  // ---- one key for every spelling --------------------------------------------

  /** Letter case never matters, for any kind and any text. */
  lemma CaseIsIrrelevant(kind: Kind, raw: string)
    ensures Normalize(kind, Lower(raw)) == Normalize(kind, raw)
  {
    StripOfLower(raw);
    var s := Strip(raw);
    hide LooksLikeIp;
    LowerIsIdempotent(s);
    match kind {
      case Ip =>
      case Host =>
        StripOfLower(s);
      case User =>
        AccountOfLower(s);
        hide AccountPart;
    }
  }

  lemma AccountOfLower(s: string)
    ensures NormalizeUser(Lower(s)) == NormalizeUser(s)
  {
    AfterLastOfLower(s, '\\');
    BeforeOfLower(AfterLast(s, '\\'), '@');
    hide Before, AfterLast;
    StripOfLower(AccountPart(s));
    LowerIsIdempotent(Strip(AccountPart(s)));
  }

  lemma {:induction false} BeforeOfPadded(l: string, m: string, r: string, sep: char)
    requires AllSpace(l) && AllSpace(r) && !IsSpace(sep)
    ensures Strip(Before(l + m + r, sep)) == Strip(Before(m, sep))
  {
    hide Before, Strip;
    if sep in m {
      var head := Before(m, sep);
      var tail := m[|head| + 1..];
      assert m == head + [sep] + tail;
      assert l + m + r == (l + head) + [sep] + (tail + r);
      assert sep !in l + head;
      assert l + head + "" == l + head;
      NoSpace();
      hide *;
      BeforeOfSum(l + head, sep, tail + r);
      StripOfPadded(l, head, "");
    } else {
      assert sep !in l + m + r;
      StripOfPadded(l, m, r);
    }
  }

  lemma {:induction false} LastSplits(s: string, sep: char) returns (head: string)
    requires sep in s
    ensures s == head + [sep] + AfterLast(s, sep)
  {
    var t, c := s[..|s| - 1], s[|s| - 1];
    if c == sep {
      head := t;
    } else {
      head := LastSplits(t, sep);
    }
  }

  lemma AfterLastOfPadded(l: string, m: string, r: string, sep: char) returns (l': string, r': string)
    requires AllSpace(l) && AllSpace(r) && !IsSpace(sep)
    ensures AllSpace(l') && AllSpace(r') && AfterLast(l + m + r, sep) == l' + AfterLast(m, sep) + r'
  {
    hide AfterLast;
    if sep in m {
      var head := LastSplits(m, sep);
      var tail := AfterLast(m, sep);
      assert sep !in tail + r;
      assert l + m + r == (l + head) + [sep] + (tail + r);
      hide *;
      AfterLastOfSum(l + head, sep, tail + r);
      AfterLastWithout(tail + r, sep);
      l', r' := "", r;
      assert "" + tail + r == tail + r && AllSpace("") by { NoSpace(); }
    } else {
      assert sep !in l + m + r;
      AfterLastWithout(l + m + r, sep);
      AfterLastWithout(m, sep);
      l', r' := l, r;
    }
  }

  lemma NoSpace()
    ensures AllSpace("")
  {
  }

  lemma AfterLastWithout(s: string, sep: char)
    requires sep !in s
    ensures AfterLast(s, sep) == s
  {
  }

  /** Whitespace around the raw value never matters. */
  lemma AccountOfPadded(l: string, m: string, r: string)
    requires AllSpace(l) && AllSpace(r)
    ensures Strip(AccountPart(l + m + r)) == Strip(AccountPart(m))
  {
    var l', r' := AfterLastOfPadded(l, m, r, '\\');
    BeforeOfPadded(l', AfterLast(m, '\\'), r', '@');
  }

  /** So the outer strip of normalize adds nothing for users. */
  lemma NormalizeUserRaw(raw: string)
    ensures Normalize(User, raw) == NormalizeUser(raw)
  {
    var l, r := StripSplits(raw);
    AccountOfPadded(l, Strip(raw), r);
    hide Before, AfterLast;
  }

  /** DOMAIN\name is name, whatever the domain and the name. */
  lemma DownLevelFormCollapses(domain: string, name: string)
    ensures Normalize(User, domain + "\\" + name) == Normalize(User, name)
  {
    NormalizeUserRaw(domain + "\\" + name);
    NormalizeUserRaw(name);
    AfterLastOfSum(domain, '\\', name);
    assert domain + "\\" + name == domain + ['\\'] + name;
  }

  /** name@domain is name, unless a backslash in the domain takes over. */
  lemma PrincipalFormCollapses(name: string, domain: string)
    requires '@' !in name && '\\' !in name && '\\' !in domain
    ensures Normalize(User, name + "@" + domain) == Normalize(User, name)
  {
    NormalizeUserRaw(name + "@" + domain);
    NormalizeUserRaw(name);
    BeforeOfSum(name, '@', domain);
    assert name + "@" + domain == name + ['@'] + domain;
    assert '\\' !in name + "@" + domain;
  }

  /** A user key is its own key, so keys read back from the incident table join
      with keys computed from events. */
  lemma UserKeyIsStable(raw: string)
    ensures Normalize(User, Normalize(User, raw)) == Normalize(User, raw)
  {
    NormalizeUserRaw(raw);
    var key := NormalizeUser(raw);
    NormalizeUserRaw(key);
    if key != "" {
      var name := Strip(AccountPart(raw));
      KeyCharacters(name, AfterLast(raw, '\\'));
      assert '\\' !in key && '@' !in key;
      assert AccountPart(key) == key;
      StripOfLower(name);
      StripIsIdentity(name);
      LowerIsIdempotent(name);
    }
  }

  /** Neither separator survives in an account name. */
  lemma KeyCharacters(name: string, tail: string)
    requires '\\' !in tail && name == Strip(Before(tail, '@'))
    ensures '\\' !in Lower(name) && '@' !in Lower(name)
  {
    assert '\\' !in Before(tail, '@') by {
      assert Before(tail, '@') <= tail;
    }
    BeforeOfLower(name, '@');
    BeforeOfLower(name, '\\');
  }

  // ---- who is skipped ----------------------------------------------------------

  lemma PlainName(name: string)
    requires '\\' !in name && '@' !in name && Stripped(name)
    ensures Normalize(User, name) == if EndsWith(Lower(name), '$') || IsNoise(Lower(name)) then "" else Lower(name)
  {
    NormalizeUserRaw(name);
    AfterLastWithout(name, '\\');
    StripIsIdentity(name);
  }

  lemma MachineName(name: string)
    requires '\\' !in name && '@' !in name && (name == "" || !IsSpace(name[0]))
    ensures '\\' !in name + "$" && '@' !in name + "$" && Stripped(name + "$") && EndsWith(Lower(name + "$"), '$')
  {
    var machine := name + "$";
    assert machine[|machine| - 1] == '$' && Lower(machine)[|machine| - 1] == LowerChar('$');
  }

  /** Machine accounts have no key, in every form of the name. */
  lemma MachineAccountsAreSkipped(domain: string, name: string)
    requires '\\' !in name && '@' !in name && '\\' !in domain && (name == "" || !IsSpace(name[0]))
    ensures Normalize(User, name + "$") == ""
    ensures Normalize(User, domain + "\\" + (name + "$")) == ""
    ensures Normalize(User, (name + "$") + "@" + domain) == ""
  {
    hide *;
    MachineName(name);
    PlainName(name + "$");
    DownLevelFormCollapses(domain, name + "$");
    PrincipalFormCollapses(name + "$", domain);
  }

  /** The names no correlation uses. */
  predicate Skipped(key: string) {
    || key == "-" || key == "(none)" || key == "system" || key == "anonymous logon" || key == "local service"
    || key == "network service" || key == "n/a" || key == "null"
  }

  lemma SkippedIs(key: string)
    ensures IsNoise(key) <==> key == "" || Skipped(key)
  {
  }

  lemma SkippedIsPlain(key: string)
    requires Skipped(key)
    ensures Stripped(key) && '\\' !in key && '@' !in key
  {
  }

  /** Nor have the service accounts and placeholders, in any case. */
  lemma NoiseIsSkipped(name: string)
    requires Skipped(Lower(name))
    ensures Normalize(User, name) == ""
  {
    hide *;
    var key := Lower(name);
    SkippedIs(key);
    SkippedIsPlain(key);
    CaseIsIrrelevant(User, name);
    PlainName(key);
    LowerIsIdempotent(name);
  }

  /** Every other plain name has its own lower-case form as its key. */
  lemma OtherNamesAreKept(name: string)
    requires name != "" && '\\' !in name && '@' !in name && Stripped(name) && name[|name| - 1] != '$'
    requires !Skipped(Lower(name))
    ensures Normalize(User, name) == Lower(name)
  {
    hide IsNoise, Skipped, Normalize;
    SkippedIs(Lower(name));
    PlainName(name);
    assert Lower(name)[|name| - 1] == LowerChar(name[|name| - 1]);
  }

  /** What reads as an address: four groups of digits between dots. */
  lemma LooksLikeIpIff(s: string)
    ensures LooksLikeIp(s) <==> exists a, b, c, d :: IsQuad(s, a, b, c, d)
  {
    if LooksLikeIp(s) {
      var parts := Split(s, '.');
      SplitJoins(s, '.');
      JoinOfFour(parts);
      assert parts[0] in parts && parts[1] in parts && parts[2] in parts && parts[3] in parts;
      assert IsQuad(s, parts[0], parts[1], parts[2], parts[3]);
    }
    if a, b, c, d :| IsQuad(s, a, b, c, d) {
      SplitOfQuad(a, b, c, d);
    }
  }

  predicate IsQuad(s: string, a: string, b: string, c: string, d: string) {
    && s == a + ['.'] + (b + ['.'] + (c + ['.'] + d))
    && a != "" && b != "" && c != "" && d != ""
    && AllDigits(a) && AllDigits(b) && AllDigits(c) && AllDigits(d)
  }

  function Joined(parts: seq<string>, sep: char): string
    requires parts != []
  {
    if |parts| == 1 then parts[0] else parts[0] + [sep] + Joined(parts[1..], sep)
  }

  lemma SplitUnfolds(s: string, sep: char)
    requires sep in s
    ensures var head := Before(s, sep);
      && |head| < |s| && s == head + [sep] + s[|head| + 1..]
      && Split(s, sep) == [head] + Split(s[|head| + 1..], sep)
  {
  }

  lemma JoinedCons(head: string, rest: seq<string>, sep: char)
    requires rest != []
    ensures Joined([head] + rest, sep) == head + [sep] + Joined(rest, sep)
  {
    assert ([head] + rest)[1..] == rest;
  }

  lemma {:induction false} SplitJoins(s: string, sep: char)
    ensures Joined(Split(s, sep), sep) == s
  {
    if sep in s {
      hide *;
      SplitUnfolds(s, sep);
      var head := Before(s, sep);
      SplitJoins(s[|head| + 1..], sep);
      JoinedCons(head, Split(s[|head| + 1..], sep), sep);
    }
  }

  lemma JoinOfFour(parts: seq<string>)
    requires |parts| == 4
    ensures Joined(parts, '.') == parts[0] + ['.'] + (parts[1] + ['.'] + (parts[2] + ['.'] + parts[3]))
  {
    assert parts == [parts[0]] + ([parts[1]] + ([parts[2]] + [parts[3]]));
    assert Joined([parts[3]], '.') == parts[3];
    hide Joined;
    JoinedCons(parts[2], [parts[3]], '.');
    JoinedCons(parts[1], [parts[2]] + [parts[3]], '.');
    JoinedCons(parts[0], [parts[1]] + ([parts[2]] + [parts[3]]), '.');
  }

  lemma SplitOfDot(head: string, tail: string)
    requires '.' !in head
    ensures Split(head + ['.'] + tail, '.') == [head] + Split(tail, '.')
  {
    BeforeOfSum(head, '.', tail);
    var s := head + ['.'] + tail;
    assert s[|head|] == '.' && s[|head| + 1..] == tail;
  }

  lemma NoDots(s: string)
    requires AllDigits(s)
    ensures '.' !in s
  {
  }

  lemma SplitOfQuad(a: string, b: string, c: string, d: string)
    requires AllDigits(a) && AllDigits(b) && AllDigits(c) && AllDigits(d)
    requires a != "" && b != "" && c != "" && d != ""
    ensures LooksLikeIp(a + ['.'] + (b + ['.'] + (c + ['.'] + d)))
  {
    hide AllDigits, Split, LooksLikeIp;
    NoDots(a);
    NoDots(b);
    NoDots(c);
    NoDots(d);
    SplitOfDot(a, b + ['.'] + (c + ['.'] + d));
    SplitOfDot(b, c + ['.'] + d);
    SplitOfDot(c, d);
    SplitOfNone(d);
    FourDigitParts(a + ['.'] + (b + ['.'] + (c + ['.'] + d)), a, b, c, d);
  }

  lemma FourDigitParts(s: string, a: string, b: string, c: string, d: string)
    requires Split(s, '.') == [a] + ([b] + ([c] + [d]))
    requires AllDigits(a) && AllDigits(b) && AllDigits(c) && AllDigits(d)
    requires a != "" && b != "" && c != "" && d != ""
    ensures LooksLikeIp(s)
  {
    hide AllDigits, Split;
  }

  lemma SplitOfNone(s: string)
    requires '.' !in s
    ensures Split(s, '.') == [s]
  {
  }

  // ---- hosts -----------------------------------------------------------------

  /** A fully qualified name collapses to its first label, except where the whole
      reads as a dotted IPv4 address. */
  lemma QualifiedNameCollapses(host: string, domain: string)
    requires host != "" && Stripped(host) && Stripped(domain) && domain != "" && '.' !in host
    ensures Normalize(Host, host + "." + domain)
         == if LooksLikeIp(Lower(host + "." + domain)) then Lower(host + "." + domain) else Normalize(Host, host)
  {
    var full := host + "." + domain;
    LowerOfSum(host, ".");
    LowerOfSum(host + ".", domain);
    LowerOfOne('.');
    BeforeOfLower(host, '.');
    NormalizeStrippedHost(full);
    NormalizeStrippedHost(host);
    hide LooksLikeIp, Normalize, NormalizeHost, Lower;
    BeforeOfSum(Lower(host), '.', Lower(domain));
    assert Lower(full)[|host|] == '.';
  }

  lemma NormalizeStrippedHost(s: string)
    requires Stripped(s)
    ensures Normalize(Host, s) == if '.' in s && !LooksLikeIp(Lower(s)) then Before(Lower(s), '.') else Lower(s)
  {
    StripIsIdentity(s);
    BeforeOfLower(s, '.');
    hide LooksLikeIp;
  }

  /** The first label carries no whitespace before its dot. */
  predicate LabelIsTight(raw: string) {
    Stripped(Before(Strip(raw), '.'))
  }

  /** A host key is its own key iff the label has no whitespace before the dot,
      or no label was cut off. */
  lemma HostKeyIsStableIff(raw: string)
    ensures Normalize(Host, Normalize(Host, raw)) == Normalize(Host, raw)
       <==> LabelIsTight(raw) || LooksLikeIp(Lower(Strip(raw)))
  {
    var s := Strip(raw);
    BeforeOfLower(s, '.');
    var key := Normalize(Host, raw);
    if s == "" {
      assert Strip(key) == "";
    } else if '.' !in s || LooksLikeIp(Lower(s)) {
      assert key == Lower(s);
      hide LooksLikeIp;
      assert '.' !in s ==> LabelIsTight(raw);
      StripOfLower(s);
      LowerIsIdempotent(s);
    } else {
      hide LooksLikeIp;
      assert key == Lower(Before(s, '.'));
      CutLabel(Before(s, '.'));
    }
  }

  lemma CutLabel(host: string)
    requires '.' !in host
    ensures Normalize(Host, Lower(host)) == Lower(host) <==> Stripped(host)
  {
    BeforeOfLower(host, '.');
    StripOfLower(host);
    LowerIsIdempotent(Strip(host));
    StripOfLower(Strip(host));
    assert '.' !in Strip(host);
    BeforeOfLower(Strip(host), '.');
    hide LooksLikeIp;
    assert Normalize(Host, Lower(host)) == Lower(Strip(host));
    hide Lower, Before;
    if Stripped(host) {
      StripIsIdentity(host);
    } else {
      StripShortens(host);
    }
  }

  lemma StripShortens(s: string)
    requires !Stripped(s)
    ensures |Strip(s)| < |s|
  {
    var l, r := StripSplits(s);
    hide Strip;
    assert Stripped(Strip(s));
    assert l == "" && r == "" ==> s == Strip(s);
  }

  /** Two applications always suffice. */
  lemma HostKeySettles(raw: string)
    ensures Normalize(Host, Normalize(Host, Normalize(Host, raw))) == Normalize(Host, Normalize(Host, raw))
  {
    var key := Normalize(Host, raw);
    HostKeyIsStableIff(raw);
    HostKeyIsStableIff(key);
    if Normalize(Host, key) != key {
      HostKeyHasNoDot(raw);
      hide Normalize, LooksLikeIp;
      assert '.' !in Strip(key);
    }
  }

  lemma HostKeyHasNoDot(raw: string)
    requires !LooksLikeIp(Lower(Strip(raw)))
    ensures '.' !in Normalize(Host, raw)
  {
    var s := Strip(raw);
    hide LooksLikeIp;
  }

  lemma AddressKeyIsStable(raw: string)
    ensures Normalize(Ip, Normalize(Ip, raw)) == Normalize(Ip, raw)
  {
    hide LooksLikeIp, Before, AfterLast, Strip, Lower;
    StripOfLower(Strip(raw));
    LowerIsIdempotent(Strip(raw));
    StripTwice(raw);
  }

  lemma StripTwice(s: string)
    ensures Strip(Strip(s)) == Strip(s)
  {
    StripIsIdentity(Strip(s));
    hide Strip;
  }

  // ---- reading a document ----------------------------------------------------

  /** A document's string fields. */
  type Source = map<string, string>

  predicate Usable(source: Source, kind: Kind, field: string) {
    field in source && source[field] != "" && Normalize(kind, source[field]) != ""
  }

  lemma NothingFromNothing(kind: Kind)
    ensures Normalize(kind, "") == ""
  {
  }

  /** The field a document is asked for first. */
  function Preferred(kind: Kind): string {
    match kind
    case User => "TargetUserName"
    case Host => "WorkstationName"
    case Ip => "IpAddress"
  }

  lemma PreferredIsFirst(kind: Kind)
    ensures AliasFields(kind) != [] && AliasFields(kind)[0] == Preferred(kind)
  {
  }

  /** The first alias, in preference order, that yields a key; "" if none does. */
  method FieldValue(source: Source, kind: Kind) returns (v: string)
    ensures v != "" ==>
              exists i :: 0 <= i < |AliasFields(kind)| && Usable(source, kind, AliasFields(kind)[i])
                && v == Normalize(kind, source[AliasFields(kind)[i]])
                && forall j :: 0 <= j < i ==> !Usable(source, kind, AliasFields(kind)[j])
    ensures v == "" ==> forall i :: 0 <= i < |AliasFields(kind)| ==> !Usable(source, kind, AliasFields(kind)[i])
    ensures Preferred(kind) in source && Normalize(kind, source[Preferred(kind)]) != "" ==>
              v == Normalize(kind, source[Preferred(kind)])
  {
    NothingFromNothing(kind);
    PreferredIsFirst(kind);
    hide Normalize, AliasFields, Preferred;
    var fields := AliasFields(kind);
    for i := 0 to |fields|
      invariant forall j :: 0 <= j < i ==> !Usable(source, kind, fields[j])
    {
      if fields[i] in source && source[fields[i]] != "" {
        v := Normalize(kind, source[fields[i]]);
        if v != "" {
          assert i > 0 ==> !Usable(source, kind, fields[0]);
          return;
        }
      }
    }
    v := "";
  }
}
