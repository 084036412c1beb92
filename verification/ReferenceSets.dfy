/** Named value sets and their entries (reference_sets.py): two tables tied by a
    cascading key, bulk adding, and the backup round trip. */
module ReferenceSets {
  import opened Wrappers
  import opened Text

  /** What a backup keeps of a set. */
  datatype Header = Header(name: string, setType: string, field: string, description: string, createdBy: string)

  datatype SetRow = SetRow(id: nat, h: Header)

  datatype EntryRow = EntryRow(setId: nat, value: string, note: string)

  /** The two tables; `nextId` is the set counter. */
  datatype Tables = Tables(sets: seq<SetRow>, entries: seq<EntryRow>, nextId: nat)

  datatype Entry = Entry(value: string, note: string)

  /** One set of a backup, its entries in some order. */
  datatype FullSet = FullSet(h: Header, entries: seq<Entry>)

  const VALID_TYPES: set<string> := {"users", "devices", "hosts", "ips", "domains", "hashes", "custom"}

  predicate NameChar(c: char) {
    'A' <= c <= 'Z' || 'a' <= c <= 'z' || '0' <= c <= '9' || c in " _.-"
  }

  predicate ValidHeader(h: Header) {
    && 1 <= |Strip(h.name)| <= 64
    && (forall c :: c in Strip(h.name) ==> NameChar(c))
    && h.setType in VALID_TYPES
    && (h.setType == "custom" ==> Strip(h.field) != "")
  }

  predicate ValidValue(v: string) {
    v != "" && Stripped(v)
  }

  // ---- bulk values -----------------------------------------------------------

  /** _split_values on the parts of its input: stripped, empty ones dropped, each
      once, in the order first seen. */
  method SplitValues(parts: seq<string>) returns (out: seq<string>)
    ensures out == FirstSeen(parts)
  {
    hide Strip;
    out := [];
    var seen: set<string> := {};
    for i := 0 to |parts|
      invariant out == FirstSeen(parts[..i])
      invariant seen == set v | v in out
    {
      assert parts[..i + 1][..i] == parts[..i];
      var v := Strip(parts[i]);
      if v != "" && v !in seen {
        seen := seen + {v};
        out := out + [v];
      }
    }
    assert parts[..|parts|] == parts;
  }

  function FirstSeen(parts: seq<string>): seq<string> {
    if parts == [] then []
    else
      var before, v := FirstSeen(parts[..|parts| - 1]), Strip(parts[|parts| - 1]);
      if v != "" && v !in before then before + [v] else before
  }

  lemma {:induction false} FirstSeenHolds(parts: seq<string>)
    ensures forall i, j :: 0 <= i < j < |FirstSeen(parts)| ==> FirstSeen(parts)[i] != FirstSeen(parts)[j]
    ensures forall v :: v in FirstSeen(parts) <==> v != "" && exists k :: 0 <= k < |parts| && Strip(parts[k]) == v
    ensures forall v :: v in FirstSeen(parts) ==> ValidValue(v)
  {
    hide Strip, Stripped;
    if parts != [] {
      var n := |parts| - 1;
      FirstSeenHolds(parts[..n]);
      var v := Strip(parts[n]);
      forall x ensures x in FirstSeen(parts) <==> x != "" && exists k :: 0 <= k < |parts| && Strip(parts[k]) == x {
        if k :| 0 <= k < |parts| && Strip(parts[k]) == x {
          assert k < n ==> parts[..n][k] == parts[k];
        }
      }
    }
  }

  // ---- the entries table -----------------------------------------------------

  /** UNIQUE(set_id, value) */
  predicate Holds(entries: seq<EntryRow>, setId: nat, value: string) {
    exists k :: 0 <= k < |entries| && entries[k].setId == setId && entries[k].value == value
  }

  function InsertEntry(entries: seq<EntryRow>, setId: nat, e: Entry): seq<EntryRow> {
    if Holds(entries, setId, e.value) then entries else entries + [EntryRow(setId, e.value, e.note)]
  }

  function InsertEntries(entries: seq<EntryRow>, setId: nat, es: seq<Entry>): seq<EntryRow> {
    if es == [] then entries else InsertEntry(InsertEntries(entries, setId, es[..|es| - 1]), setId, es[|es| - 1])
  }

  ghost predicate Unique(entries: seq<EntryRow>) {
    forall i, j :: 0 <= i < j < |entries| ==> entries[i].setId != entries[j].setId || entries[i].value != entries[j].value
  }

  /** The set's entries are exactly these. */
  ghost predicate Lists(entries: seq<EntryRow>, setId: nat, es: seq<Entry>) {
    forall v, n :: EntryRow(setId, v, n) in entries <==> Entry(v, n) in es
  }

  predicate DistinctValues(es: seq<Entry>) {
    forall i, j :: 0 <= i < j < |es| ==> es[i].value != es[j].value
  }

  // ---- the sets table --------------------------------------------------------

  predicate NameTaken(sets: seq<SetRow>, name: string) {
    exists k :: 0 <= k < |sets| && sets[k].h.name == name
  }

  ghost predicate Sound(t: Tables) {
    && (forall i, j :: 0 <= i < j < |t.sets| ==> t.sets[i].id != t.sets[j].id && t.sets[i].h.name != t.sets[j].h.name)
    && (forall i :: 0 <= i < |t.sets| ==>
          t.sets[i].id < t.nextId && ValidHeader(t.sets[i].h) && Stripped(t.sets[i].h.name))
    && Unique(t.entries)
    && (forall k :: 0 <= k < |t.entries| ==> ValidValue(t.entries[k].value) && HasSet(t.sets, t.entries[k].setId))
  }

  predicate HasSet(sets: seq<SetRow>, id: nat) {
    exists i :: 0 <= i < |sets| && sets[i].id == id
  }

  /** ON DELETE CASCADE */
  function WithoutSet(entries: seq<EntryRow>, setId: nat): seq<EntryRow> {
    if entries == [] then []
    else
      var n := |entries| - 1;
      WithoutSet(entries[..n], setId) + (if entries[n].setId == setId then [] else [entries[n]])
  }

  function RowsExcept(sets: seq<SetRow>, setId: nat): seq<SetRow> {
    if sets == [] then []
    else
      var n := |sets| - 1;
      RowsExcept(sets[..n], setId) + (if sets[n].id == setId then [] else [sets[n]])
  }

  lemma {:induction false} WithoutSetMembers(entries: seq<EntryRow>, setId: nat)
    ensures forall e :: e in WithoutSet(entries, setId) <==> e in entries && e.setId != setId
  {
    if entries != [] {
      WithoutSetMembers(entries[..|entries| - 1], setId);
      assert entries == entries[..|entries| - 1] + [entries[|entries| - 1]];
    }
  }

  lemma {:induction false} RowsExceptMembers(sets: seq<SetRow>, setId: nat)
    ensures forall s :: s in RowsExcept(sets, setId) <==> s in sets && s.id != setId
  {
    if sets != [] {
      RowsExceptMembers(sets[..|sets| - 1], setId);
      assert sets == sets[..|sets| - 1] + [sets[|sets| - 1]];
    }
  }

  // ---- backup ----------------------------------------------------------------

  /** What export_all may return: each set once, in some order, with exactly its
      entries, in some order. */
  ghost predicate IsExport(t: Tables, full: seq<FullSet>) {
    && |full| == |t.sets|
    && (forall i, j :: 0 <= i < j < |full| ==> full[i].h.name != full[j].h.name)
    && (forall i :: 0 <= i < |full| ==> Described(t, full[i]))
  }

  ghost predicate Described(t: Tables, f: FullSet) {
    DistinctValues(f.entries)
    && exists k :: 0 <= k < |t.sets| && t.sets[k].h == f.h && Lists(t.entries, t.sets[k].id, f.entries)
  }

  /** import_all's work on one set, no author given. */
  function ImportSet(t: Tables, f: FullSet): Tables {
    if !ValidHeader(f.h) || NameTaken(t.sets, Strip(f.h.name)) then t
    else
      Tables(t.sets + [SetRow(t.nextId, f.h.(name := Strip(f.h.name)))],
             InsertEntries(t.entries, t.nextId, CleanEntries(f.entries)),
             t.nextId + 1)
  }

  function CleanEntries(es: seq<Entry>): seq<Entry> {
    if es == [] then []
    else
      var e := es[|es| - 1];
      CleanEntries(es[..|es| - 1]) + (if Strip(e.value) == "" then [] else [e.(value := Strip(e.value))])
  }

  function ImportAll(t: Tables, full: seq<FullSet>): Tables {
    if full == [] then t else ImportSet(ImportAll(t, full[..|full| - 1]), full[|full| - 1])
  }

  lemma {:induction false} CleanIsIdentity(es: seq<Entry>)
    requires forall i :: 0 <= i < |es| ==> ValidValue(es[i].value)
    ensures CleanEntries(es) == es
  {
    hide Strip, Stripped;
    if es != [] {
      var n := |es| - 1;
      CleanIsIdentity(es[..n]);
      var e := es[n];
      assert ValidValue(e.value);
      StripIsIdentity(e.value);
      assert CleanEntries(es) == es[..n] + (if Strip(e.value) == "" then [] else [e.(value := Strip(e.value))]);
      hide CleanEntries;
      assert e.(value := e.value) == e;
      assert es == es[..n] + [e];
    }
  }

  /** Entries of a new set all go in, and no other set's entries change. */
  lemma {:induction false} InsertNew(entries: seq<EntryRow>, setId: nat, es: seq<Entry>)
    requires forall k :: 0 <= k < |entries| ==> entries[k].setId != setId
    requires DistinctValues(es)
    ensures InsertEntries(entries, setId, es) == entries + RowsOf(setId, es)
  {
    if es == [] {
      assert entries + RowsOf(setId, es) == entries;
    } else {
      var n := |es| - 1;
      InsertNew(entries, setId, es[..n]);
      var before := entries + RowsOf(setId, es[..n]);
      forall k | 0 <= k < |before| ensures before[k].setId != setId || before[k].value != es[n].value {
        if k >= |entries| {
          assert before[k] == RowsOf(setId, es[..n])[k - |entries|];
          assert es[k - |entries|].value != es[n].value;
        }
      }
      assert !Holds(before, setId, es[n].value);
      assert before + [EntryRow(setId, es[n].value, es[n].note)] == entries + RowsOf(setId, es);
    }
  }

  function RowsOf(setId: nat, es: seq<Entry>): (r: seq<EntryRow>)
    ensures |r| == |es| && forall i :: 0 <= i < |es| ==> r[i] == EntryRow(setId, es[i].value, es[i].note)
  {
    if es == [] then [] else RowsOf(setId, es[..|es| - 1]) + [EntryRow(setId, es[|es| - 1].value, es[|es| - 1].note)]
  }

  /** A set a valid backup can hold. */
  ghost predicate Restorable(f: FullSet) {
    && ValidHeader(f.h) && Stripped(f.h.name) && DistinctValues(f.entries)
    && forall i :: 0 <= i < |f.entries| ==> ValidValue(f.entries[i].value)
  }

  /** Every row belongs to a set before the counter. */
  ghost predicate Bounded(t: Tables) {
    && (forall i :: 0 <= i < |t.sets| ==> t.sets[i].id < t.nextId)
    && (forall k :: 0 <= k < |t.entries| ==> t.entries[k].setId < t.nextId)
  }

  lemma ImportOfRestorable(t: Tables, f: FullSet)
    requires Bounded(t) && Restorable(f) && !NameTaken(t.sets, f.h.name)
    ensures ImportSet(t, f)
         == Tables(t.sets + [SetRow(t.nextId, f.h)], t.entries + RowsOf(t.nextId, f.entries), t.nextId + 1)
    ensures Bounded(ImportSet(t, f))
  {
    hide ValidHeader, NameTaken;
    StripIsIdentity(f.h.name);
    hide Strip;
    CleanIsIdentity(f.entries);
    InsertNew(t.entries, t.nextId, f.entries);
    hide CleanEntries, InsertEntries;
    assert f.h.(name := f.h.name) == f.h;
  }

  lemma DescribedStays(t: Tables, f: FullSet, g: FullSet)
    requires Bounded(t) && Described(t, g)
    ensures Described(Tables(t.sets + [SetRow(t.nextId, f.h)], t.entries + RowsOf(t.nextId, f.entries), t.nextId + 1), g)
  {
    var k :| 0 <= k < |t.sets| && t.sets[k].h == g.h && Lists(t.entries, t.sets[k].id, g.entries);
    var id, entries := t.sets[k].id, t.entries + RowsOf(t.nextId, f.entries);
    hide RowsOf, DistinctValues;
    forall v, n ensures EntryRow(id, v, n) in entries <==> Entry(v, n) in g.entries {
      assert EntryRow(id, v, n) in entries <==> EntryRow(id, v, n) in t.entries;
    }
    assert Lists(entries, id, g.entries);
    assert (t.sets + [SetRow(t.nextId, f.h)])[k] == t.sets[k];
  }

  lemma ImportedIsDescribed(t: Tables, f: FullSet)
    requires Bounded(t) && DistinctValues(f.entries)
    ensures Described(Tables(t.sets + [SetRow(t.nextId, f.h)], t.entries + RowsOf(t.nextId, f.entries), t.nextId + 1), f)
  {
    var id, entries := t.nextId, t.entries + RowsOf(t.nextId, f.entries);
    hide RowsOf, DistinctValues;
    forall v, n ensures EntryRow(id, v, n) in entries <==> Entry(v, n) in f.entries {
      assert EntryRow(id, v, n) !in t.entries;
    }
    assert Lists(entries, id, f.entries);
    assert (t.sets + [SetRow(id, f.h)])[|t.sets|] == SetRow(id, f.h);
  }

  /** Importing restorable sets of distinct names into empty tables restores every
      one of them: the tables export exactly what went in. */
  lemma {:induction false} ImportRestores(full: seq<FullSet>, nextId: nat)
    requires forall i :: 0 <= i < |full| ==> Restorable(full[i])
    requires forall i, j :: 0 <= i < j < |full| ==> full[i].h.name != full[j].h.name
    ensures IsExport(ImportAll(Tables([], [], nextId), full), full)
    ensures Bounded(ImportAll(Tables([], [], nextId), full))
    ensures forall i :: 0 <= i < |full| ==> ImportAll(Tables([], [], nextId), full).sets[i].h == full[i].h
  {
    EmptyIsBounded(nextId);
    hide Restorable, Described, Bounded, NameTaken, ImportSet;
    if full != [] {
      var n := |full| - 1;
      ImportRestores(full[..n], nextId);
      var t := ImportAll(Tables([], [], nextId), full[..n]);
      NewName(t.sets, full);
      ImportOfRestorable(t, full[n]);
      RestorableIsDistinct(full[n]);
      ImportedIsDescribed(t, full[n]);
      forall i | 0 <= i < n ensures Described(ImportSet(t, full[n]), full[i]) {
        assert Described(t, full[..n][i]);
        DescribedStays(t, full[n], full[i]);
      }
    }
  }

  lemma EmptyIsBounded(nextId: nat)
    ensures Bounded(Tables([], [], nextId))
  {
  }

  lemma NewName(sets: seq<SetRow>, full: seq<FullSet>)
    requires full != [] && |sets| == |full| - 1
    requires forall i :: 0 <= i < |sets| ==> sets[i].h == full[..|full| - 1][i].h
    requires forall i, j :: 0 <= i < j < |full| ==> full[i].h.name != full[j].h.name
    ensures !NameTaken(sets, full[|full| - 1].h.name)
  {
    forall k | 0 <= k < |sets| ensures sets[k].h.name != full[|full| - 1].h.name {
      assert sets[k].h == full[k].h;
    }
  }

  lemma RestorableIsDistinct(f: FullSet)
    requires Restorable(f)
    ensures DistinctValues(f.entries)
  {
  }

  /** Export, clear, import: every set comes back with its type, field,
      description, author and exact values and notes, under a new id, whatever
      order the export listed things in. */
  lemma BackupRoundTrip(t: Tables, full: seq<FullSet>, nextId: nat)
    requires Sound(t) && IsExport(t, full)
    ensures IsExport(ImportAll(Tables([], [], nextId), full), full)
    ensures |ImportAll(Tables([], [], nextId), full).sets| == |t.sets|
  {
    assert forall i :: 0 <= i < |full| ==> Restorable(full[i]);
    hide Restorable, Described, Sound;
    ImportRestores(full, nextId);
  }

  // ---- what every operation keeps --------------------------------------------

  lemma EmptyIsSound(nextId: nat)
    ensures Sound(Tables([], [], nextId))
  {
  }

  lemma InsertKeepsSound(t: Tables, setId: nat, e: Entry)
    ensures Sound(t) && HasSet(t.sets, setId) && ValidValue(e.value) ==> Sound(t.(entries := InsertEntry(t.entries, setId, e)))
  {
    hide ValidHeader, ValidValue, HasSet;
  }

  lemma {:induction false} InsertAllKeepsSound(t: Tables, setId: nat, es: seq<Entry>)
    requires Sound(t) && HasSet(t.sets, setId)
    requires forall i :: 0 <= i < |es| ==> ValidValue(es[i].value)
    ensures Sound(t.(entries := InsertEntries(t.entries, setId, es)))
  {
    if es != [] {
      var n := |es| - 1;
      InsertAllKeepsSound(t, setId, es[..n]);
      hide Sound, InsertEntry, ValidValue;
      InsertKeepsSound(t.(entries := InsertEntries(t.entries, setId, es[..n])), setId, es[n]);
    } else {
      assert t.(entries := InsertEntries(t.entries, setId, es)) == t;
    }
  }

  lemma {:induction false} CleanIsValid(es: seq<Entry>)
    ensures forall i :: 0 <= i < |CleanEntries(es)| ==> ValidValue(CleanEntries(es)[i].value)
  {
    hide Strip, Stripped;
    if es != [] {
      CleanIsValid(es[..|es| - 1]);
    }
  }

  lemma AddSetKeepsSound(t: Tables, h: Header)
    requires Sound(t) && ValidHeader(h) && Stripped(h.name) && !NameTaken(t.sets, h.name)
    ensures Sound(Tables(t.sets + [SetRow(t.nextId, h)], t.entries, t.nextId + 1))
    ensures HasSet(t.sets + [SetRow(t.nextId, h)], t.nextId)
  {
    hide ValidHeader, ValidValue, Stripped, Unique;
    var sets := t.sets + [SetRow(t.nextId, h)];
    assert sets[|t.sets|].id == t.nextId;
    forall k | 0 <= k < |t.entries| ensures HasSet(sets, t.entries[k].setId) {
      assert HasSet(t.sets, t.entries[k].setId);
      var i :| 0 <= i < |t.sets| && t.sets[i].id == t.entries[k].setId;
      assert sets[i].id == t.entries[k].setId;
    }
  }

  lemma ImportSetKeepsSound(t: Tables, f: FullSet)
    ensures Sound(t) ==> Sound(ImportSet(t, f))
  {
    if Sound(t) && ValidHeader(f.h) && !NameTaken(t.sets, Strip(f.h.name)) {
      var h := f.h.(name := Strip(f.h.name));
      StripIsIdentity(h.name);
      assert ValidHeader(h);
      hide Strip, Stripped, ValidHeader, NameTaken, Sound;
      AddSetKeepsSound(t, h);
      CleanIsValid(f.entries);
      hide ValidValue, CleanEntries, HasSet;
      InsertAllKeepsSound(Tables(t.sets + [SetRow(t.nextId, h)], t.entries, t.nextId + 1), t.nextId, CleanEntries(f.entries));
    }
  }

  /** An import adds a set unless its name, stripped, is taken, empty, longer than 64
      characters or has one other than letters, digits, blank, underscore, dot and
      hyphen, its type is none of the seven, or it is custom and names no field. */
  lemma ImportRefusesIff(t: Tables, f: FullSet)
    ensures var name := Strip(f.h.name);
      ImportSet(t, f) == t
      <==> || (exists k :: 0 <= k < |t.sets| && t.sets[k].h.name == name)
           || name == "" || |name| > 64
           || (exists c :: c in name && !('A' <= c <= 'Z') && !('a' <= c <= 'z') && !('0' <= c <= '9') && c != ' ' && c != '_' && c != '.' && c != '-')
           || f.h.setType !in {"users", "devices", "hosts", "ips", "domains", "hashes", "custom"}
           || (f.h.setType == "custom" && Strip(f.h.field) == "")
  {
    var name := Strip(f.h.name);
    forall c ensures NameChar(c) <==> IsLetter(c) || '0' <= c <= '9' || c == ' ' || c == '_' || c == '.' || c == '-' {
      NameCharIs(c);
    }
    hide Strip, NameChar, InsertEntries, CleanEntries;
    if ValidHeader(f.h) && !NameTaken(t.sets, name) {
      assert |ImportSet(t, f).sets| == |t.sets| + 1;
    }
  }

  lemma NameCharIs(c: char)
    ensures NameChar(c) <==> IsLetter(c) || '0' <= c <= '9' || c == ' ' || c == '_' || c == '.' || c == '-'
  {
    var others := " _.-";
    assert others[0] == ' ' && others[1] == '_' && others[2] == '.' && others[3] == '-';
  }

  lemma {:induction false} CleanHolds(es: seq<Entry>, v: string)
    ensures (exists e :: e in CleanEntries(es) && e.value == v) <==> v != "" && exists e :: e in es && Strip(e.value) == v
  {
    hide Strip;
    if es != [] {
      var n := |es| - 1;
      CleanHolds(es[..n], v);
      assert es == es[..n] + [es[n]];
      if e :| e in es && Strip(e.value) == v && v != "" {
        assert e == es[n] || e in es[..n];
        assert Strip(es[n].value) == v ==> es[n].(value := v) in CleanEntries(es);
      }
    }
  }

  /** An imported set holds exactly the non-blank values of the backup, stripped. */
  lemma ImportedValues(t: Tables, f: FullSet, v: string)
    requires Bounded(t) && ImportSet(t, f) != t
    ensures Holds(ImportSet(t, f).entries, t.nextId, v) <==> v != "" && exists e :: e in f.entries && Strip(e.value) == v
  {
    var es := CleanEntries(f.entries);
    InsertGrows(t.entries, t.nextId, es);
    CleanHolds(f.entries, v);
    var entries := InsertEntries(t.entries, t.nextId, es);
    hide InsertEntries, CleanEntries, Strip, ValidHeader, NameTaken;
    if Holds(entries, t.nextId, v) {
      var k :| 0 <= k < |entries| && entries[k].setId == t.nextId && entries[k].value == v;
      assert k >= |t.entries|;
      assert Entry(v, entries[k].note) in es;
    }
    if e :| e in es && e.value == v {
      var i :| 0 <= i < |es| && es[i] == e;
      assert Holds(entries, t.nextId, es[i].value);
    }
  }

  lemma {:induction false} WithoutSetKeepsUnique(entries: seq<EntryRow>, setId: nat)
    requires Unique(entries)
    ensures Unique(WithoutSet(entries, setId))
  {
    if entries != [] {
      var n := |entries| - 1;
      WithoutSetKeepsUnique(entries[..n], setId);
      WithoutSetMembers(entries[..n], setId);
      var rest := WithoutSet(entries[..n], setId);
      forall k | 0 <= k < |rest| ensures rest[k].setId != entries[n].setId || rest[k].value != entries[n].value {
        assert rest[k] in entries[..n];
      }
    }
  }

  predicate DistinctSets(sets: seq<SetRow>) {
    forall i, j :: 0 <= i < j < |sets| ==> sets[i].id != sets[j].id && sets[i].h.name != sets[j].h.name
  }

  lemma {:induction false} RowsExceptKeepsDistinct(sets: seq<SetRow>, setId: nat)
    requires DistinctSets(sets)
    ensures DistinctSets(RowsExcept(sets, setId))
  {
    if sets != [] {
      var n := |sets| - 1;
      RowsExceptKeepsDistinct(sets[..n], setId);
      RowsExceptMembers(sets[..n], setId);
      var rest := RowsExcept(sets[..n], setId);
      forall k | 0 <= k < |rest| ensures rest[k].id != sets[n].id && rest[k].h.name != sets[n].h.name {
        assert rest[k] in sets[..n];
      }
    }
  }

  lemma KeptRows(t: Tables, setId: nat)
    requires Sound(t)
    ensures forall s :: s in RowsExcept(t.sets, setId) ==> s.id < t.nextId && ValidHeader(s.h) && Stripped(s.h.name)
  {
    RowsExceptMembers(t.sets, setId);
    hide ValidHeader, Stripped, RowsExcept, Unique, ValidValue, HasSet;
    forall s | s in RowsExcept(t.sets, setId) ensures s.id < t.nextId && ValidHeader(s.h) && Stripped(s.h.name) {
      var i :| 0 <= i < |t.sets| && t.sets[i] == s;
    }
  }

  lemma KeptEntries(t: Tables, setId: nat)
    requires Sound(t)
    ensures forall e :: e in WithoutSet(t.entries, setId) ==> ValidValue(e.value) && HasSet(RowsExcept(t.sets, setId), e.setId)
  {
    RowsExceptMembers(t.sets, setId);
    WithoutSetMembers(t.entries, setId);
    var sets := RowsExcept(t.sets, setId);
    hide ValidHeader, Stripped, RowsExcept, WithoutSet, Unique, ValidValue;
    forall e | e in WithoutSet(t.entries, setId) ensures ValidValue(e.value) && HasSet(sets, e.setId) {
      var k :| 0 <= k < |t.entries| && t.entries[k] == e;
      var i :| 0 <= i < |t.sets| && t.sets[i].id == e.setId;
      assert t.sets[i] in sets;
    }
  }

  lemma DeleteKeepsSound(t: Tables, setId: nat)
    ensures Sound(t) ==> Sound(Tables(RowsExcept(t.sets, setId), WithoutSet(t.entries, setId), t.nextId))
  {
    if Sound(t) {
      KeptRows(t, setId);
      KeptEntries(t, setId);
      RowsExceptKeepsDistinct(t.sets, setId);
      WithoutSetKeepsUnique(t.entries, setId);
      hide ValidHeader, ValidValue, Stripped, Unique, RowsExcept, WithoutSet, HasSet;
      var sets, entries := RowsExcept(t.sets, setId), WithoutSet(t.entries, setId);
      assert forall i :: 0 <= i < |sets| ==> sets[i] in sets;
      assert forall k :: 0 <= k < |entries| ==> entries[k] in entries;
    }
  }

  function Noted(vals: seq<string>, note: string): (es: seq<Entry>)
    ensures |es| == |vals| && forall i :: 0 <= i < |vals| ==> es[i] == Entry(vals[i], note)
  {
    if vals == [] then [] else Noted(vals[..|vals| - 1], note) + [Entry(vals[|vals| - 1], note)]
  }

  /** What a bulk insert leaves: the old rows, then one new row for each value the
      set did not hold. */
  ghost predicate Grew(before: seq<EntryRow>, setId: nat, es: seq<Entry>, entries: seq<EntryRow>) {
    && before <= entries && |entries| <= |before| + |es|
    && (forall i :: 0 <= i < |es| ==> Holds(entries, setId, es[i].value))
    && (forall k :: |before| <= k < |entries| ==>
          && entries[k].setId == setId && Entry(entries[k].value, entries[k].note) in es
          && !Holds(before, setId, entries[k].value))
  }

  lemma {:induction false} InsertGrows(before: seq<EntryRow>, setId: nat, es: seq<Entry>)
    ensures Grew(before, setId, es, InsertEntries(before, setId, es))
  {
    if es != [] {
      var n := |es| - 1;
      InsertGrows(before, setId, es[..n]);
      var was, e := InsertEntries(before, setId, es[..n]), es[n];
      assert InsertEntries(before, setId, es) == InsertEntry(was, setId, e);
      hide InsertEntries;
      OneMore(before, setId, es[..n], was, e);
      assert es[..n] + [e] == es;
    }
  }

  lemma OneMore(before: seq<EntryRow>, setId: nat, es: seq<Entry>, was: seq<EntryRow>, e: Entry)
    requires Grew(before, setId, es, was)
    ensures Grew(before, setId, es + [e], InsertEntry(was, setId, e))
  {
    var now, all := InsertEntry(was, setId, e), es + [e];
    StillHeld(was, now, setId);
    StillHeld(before, was, setId);
    assert !Holds(was, setId, e.value) ==> now[|was|] == EntryRow(setId, e.value, e.note);
    hide Holds;
    assert all[|es|] == e;
    forall k | |before| <= k < |now|
      ensures now[k].setId == setId && Entry(now[k].value, now[k].note) in all && !Holds(before, setId, now[k].value)
    {
      if k < |was| {
        assert Entry(was[k].value, was[k].note) in es;
      }
    }
    forall i | 0 <= i < |all| ensures Holds(now, setId, all[i].value) {
      if i == |es| {
        InsertedIsHeld(was, setId, e);
      }
    }
  }

  lemma InsertedIsHeld(was: seq<EntryRow>, setId: nat, e: Entry)
    ensures Holds(InsertEntry(was, setId, e), setId, e.value)
  {
    if !Holds(was, setId, e.value) {
      assert InsertEntry(was, setId, e)[|was|] == EntryRow(setId, e.value, e.note);
    }
  }

  lemma StillHeld(a: seq<EntryRow>, b: seq<EntryRow>, setId: nat)
    requires a <= b
    ensures forall v :: Holds(a, setId, v) ==> Holds(b, setId, v)
  {
    forall v | Holds(a, setId, v) ensures Holds(b, setId, v) {
      var k :| 0 <= k < |a| && a[k].setId == setId && a[k].value == v;
      assert b[k] == a[k];
    }
  }

  // ---- the store -------------------------------------------------------------

  class ReferenceStore {
    var sets: seq<SetRow>
    var entries: seq<EntryRow>
    var nextId: nat

    ghost function Contents(): Tables
      reads this
    {
      Tables(sets, entries, nextId)
    }

    constructor ()
      ensures Contents() == Tables([], [], 1)
    {
      sets, entries, nextId := [], [], 1;
    }

    /** None is the KeyError of an unknown set or the ValueError of no values;
        otherwise how many values were added and how many skipped. */
    method AddEntries(setId: nat, parts: seq<string>, note: string) returns (counts: Option<(nat, nat)>)
      modifies this`entries
      ensures counts.None? <==> !HasSet(sets, setId) || FirstSeen(parts) == []
      ensures counts.None? ==> entries == old(entries)
      ensures counts.Some? ==> counts.value == (|entries| - |old(entries)|, |FirstSeen(parts)| - (|entries| - |old(entries)|))
      ensures counts.Some? ==> Grew(old(entries), setId, Noted(FirstSeen(parts), note), entries)
      ensures old(Sound(Contents())) ==> Sound(Contents())
    {
      hide *;
      SameTables();
      ghost var before := Contents();
      if !HasSet(sets, setId) {
        return None;
      }
      var vals := SplitValues(parts);
      if vals == [] {
        return None;
      }
      var added := InsertValues(setId, vals, note);
      InsertGrows(before.entries, setId, Noted(vals, note));
      if Sound(before) {
        SeenIsValid(parts);
        InsertAllKeepsSound(before, setId, Noted(vals, note));
      }
      SameTables();
      return Some((added, |vals| - added));
    }

    static lemma SeenIsValid(parts: seq<string>)
      ensures forall i :: 0 <= i < |FirstSeen(parts)| ==> ValidValue(FirstSeen(parts)[i])
    {
      FirstSeenHolds(parts);
      var out := FirstSeen(parts);
      forall i | 0 <= i < |out| ensures ValidValue(out[i]) {
        assert out[i] in out;
      }
    }

    lemma SameTables()
      ensures Contents() == Tables(sets, entries, nextId)
    {
    }

    method InsertValues(setId: nat, vals: seq<string>, note: string) returns (added: nat)
      modifies this`entries
      ensures entries == InsertEntries(old(entries), setId, Noted(vals, note))
      ensures added == |entries| - |old(entries)| && added <= |vals|
    {
      hide Holds, InsertEntry;
      added := 0;
      ghost var es := Noted(vals, note);
      for i := 0 to |vals|
        invariant entries == InsertEntries(old(entries), setId, es[..i])
        invariant |entries| == |old(entries)| + added && added <= i
      {
        assert es[..i + 1][..i] == es[..i];
        if !Holds(entries, setId, vals[i]) {
          NewRowGrows(entries, setId, es[i]);
          entries := entries + [EntryRow(setId, vals[i], note)];
          added := added + 1;
        } else {
          HeldRowStays(entries, setId, es[i]);
        }
      }
      assert es[..|vals|] == es;
    }

    static lemma NewRowGrows(entries: seq<EntryRow>, setId: nat, e: Entry)
      requires !Holds(entries, setId, e.value)
      ensures InsertEntry(entries, setId, e) == entries + [EntryRow(setId, e.value, e.note)]
    {
    }

    static lemma HeldRowStays(entries: seq<EntryRow>, setId: nat, e: Entry)
      requires Holds(entries, setId, e.value)
      ensures InsertEntry(entries, setId, e) == entries
    {
    }

    /** Deleting a set takes its entries with it and nothing else. */
    method DeleteSet(setId: nat) returns (deleted: bool)
      modifies this
      ensures deleted <==> HasSet(old(sets), setId)
      ensures forall s :: s in sets <==> s in old(sets) && s.id != setId
      ensures forall e :: e in entries <==> e in old(entries) && (deleted ==> e.setId != setId)
      ensures nextId == old(nextId)
      ensures old(Sound(Contents())) ==> Sound(Contents())
    {
      DeleteKeepsSound(Contents(), setId);
      RowsExceptMembers(sets, setId);
      WithoutSetMembers(entries, setId);
      hide Sound;
      deleted := HasSet(sets, setId);
      if deleted {
        sets := RowsExcept(sets, setId);
        entries := WithoutSet(entries, setId);
      }
    }

    method Restore(full: seq<FullSet>, replace: bool) returns (inserted: nat)
      modifies this
      ensures Contents() == ImportAll(if replace then Tables([], [], old(nextId)) else old(Contents()), full)
      ensures inserted == |sets| - (if replace then 0 else |old(sets)|)
      ensures old(Sound(Contents())) ==> Sound(Contents())
    {
      EmptyIsSound(nextId);
      hide ValidHeader, NameTaken, CleanEntries, Strip, Sound;
      if replace {
        sets, entries := [], [];
      }
      inserted := 0;
      ghost var base := Contents();
      for i := 0 to |full|
        invariant Contents() == ImportAll(base, full[..i])
        invariant |sets| == |base.sets| + inserted
        invariant old(Sound(Contents())) ==> Sound(Contents())
      {
        ImportSetKeepsSound(Contents(), full[i]);
        assert full[..i + 1][..i] == full[..i];
        var f := full[i];
        if !ValidHeader(f.h) || NameTaken(sets, Strip(f.h.name)) {
          continue;
        }
        RestoreEntries(CleanEntries(f.entries));
        sets := sets + [SetRow(nextId, f.h.(name := Strip(f.h.name)))];
        nextId := nextId + 1;
        inserted := inserted + 1;
      }
      assert full[..|full|] == full;
    }

    /** The entries of the set about to take the next id. */
    method RestoreEntries(es: seq<Entry>)
      modifies this`entries
      ensures entries == InsertEntries(old(entries), nextId, es)
    {
      for k := 0 to |es|
        invariant entries == InsertEntries(old(entries), nextId, es[..k])
      {
        assert es[..k + 1][..k] == es[..k];
        if !Holds(entries, nextId, es[k].value) {
          entries := entries + [EntryRow(nextId, es[k].value, es[k].note)];
        }
      }
      assert es[..|es|] == es;
    }
  }
}
