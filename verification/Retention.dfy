/** Retention of the daily logs: which files a purge deletes and what it reports. */
module Retention {
  import opened Options
  import opened Text
  import opened Sequences
  import opened Calendar

  const LOG_RETENTION_DAYS: nat := 30
  const MAX_RETAINED_LOG_FILES: nat := 64
  const SECONDS_PER_DAY: nat := 86_400
  const PREFIX: string := "true-tick-"
  const SUFFIX: string := ".csv"

  const U64: nat := 0x1_0000_0000_0000_0000

  // ---------------------------------------------------------------------------
  // File names.

  function Digits(s: string): Option<nat> {
    if AllDigits(s) then Some(DigitsValue(s)) else None
  }

  function StripSuffix(s: string, suffix: string): Option<string> {
    if |suffix| <= |s| && s[|s| - |suffix|..] == suffix then Some(s[..|s| - |suffix|]) else None
  }

  /** The ten characters between prefix and suffix: all of them are checked, so a multi-byte one can
      only be refused. */
  function DateFromStem(stem: string): Option<Date> {
    if Utf8Len(stem) != 10 || |stem| != 10 || stem[4] != '-' || stem[7] != '-' then None
    else
      var year, month, day := Digits(stem[0..4]), Digits(stem[5..7]), Digits(stem[8..10]);
      if year.None? || month.None? || day.None? then None
      else if !(1 <= month.value <= 12) || !(1 <= day.value <= 31) then None
      else Some(Date(year.value, month.value, day.value))
  }

  function DateFromName(name: string): Option<Date> {
    match StripPrefix(PREFIX, name)
    case None => None
    case Some(rest) =>
      match StripSuffix(rest, SUFFIX)
      case None => None
      case Some(stem) => DateFromStem(stem)
  }

  /** Decimal in exactly `width` digits. */
  function Padded(n: nat, width: nat): (s: string)
    ensures |s| == width && AllDigits(s)
    decreases width
  {
    if width == 0 then [] else Padded(n / 10, width - 1) + [DigitChar(n % 10)]
  }

  function StemOf(d: Date): string
    requires 0 <= d.year && 0 <= d.month && 0 <= d.day
  {
    Padded(d.year, 4) + "-" + Padded(d.month, 2) + "-" + Padded(d.day, 2)
  }

  lemma {:induction false} PaddedValue(n: nat, width: nat)
    requires n < Pow10(width)
    ensures DigitsValue(Padded(n, width)) == n
    decreases width
  {
    if width > 0 {
      PaddedValue(n / 10, width - 1);
      var s := Padded(n, width);
      assert s[..|s| - 1] == Padded(n / 10, width - 1);
    }
  }

  lemma {:induction false} PaddedOfValue(s: string)
    requires AllDigits(s)
    ensures Padded(DigitsValue(s), |s|) == s && DigitsValue(s) < Pow10(|s|)
  {
    if s != [] {
      var k := |s| - 1;
      PaddedOfValue(s[..k]);
      var n := DigitsValue(s);
      assert n / 10 == DigitsValue(s[..k]) && n % 10 == DigitValue(s[k]);
      assert DigitChar(DigitValue(s[k])) == s[k];
      assert s == s[..k] + [s[k]];
    }
  }

  lemma Pow10Small()
    ensures Pow10(2) == 100 && Pow10(4) == 10000
  {
    assert Pow10(1) == 10;
    assert Pow10(3) == 1000;
  }

  /** A stem is understood exactly when it is the zero-padded spelling of its date. */
  lemma StemRoundTrip(d: Date)
    requires 0 <= d.year <= 9999 && 1 <= d.month <= 12 && 1 <= d.day <= 31
    ensures DateFromStem(StemOf(d)) == Some(d)
  {
    Pow10Small();
    PaddedValue(d.year, 4);
    PaddedValue(d.month, 2);
    PaddedValue(d.day, 2);
    StemParts(Padded(d.year, 4), Padded(d.month, 2), Padded(d.day, 2));
  }

  lemma StemParts(y: string, m: string, d: string)
    requires AllDigits(y) && AllDigits(m) && AllDigits(d) && |y| == 4 && |m| == 2 && |d| == 2
    requires 1 <= DigitsValue(m) <= 12 && 1 <= DigitsValue(d) <= 31
    ensures DateFromStem(y + "-" + m + "-" + d)
            == Some(Date(DigitsValue(y), DigitsValue(m), DigitsValue(d)))
  {
    var stem := y + "-" + m + "-" + d;
    StemSlices(y, '-', m, d);
    StemIsAscii(stem, y, m, d);
  }

  lemma StemSlices<T>(y: seq<T>, c: T, m: seq<T>, d: seq<T>)
    requires |y| == 4 && |m| == 2 && |d| == 2
    ensures var stem := y + [c] + m + [c] + d;
            |stem| == 10 && stem[4] == c && stem[7] == c
            && stem[0..4] == y && stem[5..7] == m && stem[8..10] == d
  {
  }

  lemma StemIsAscii(stem: string, y: string, m: string, d: string)
    requires AllDigits(y) && AllDigits(m) && AllDigits(d) && stem == y + "-" + m + "-" + d
    ensures Utf8Len(stem) == |stem|
  {
    assert Ascii(stem);
    AsciiLen(stem);
  }

  lemma StemSpelling(stem: string)
    requires DateFromStem(stem).Some?
    ensures var d := DateFromStem(stem).value;
            0 <= d.year <= 9999 && 1 <= d.month <= 12 && 1 <= d.day <= 31 && stem == StemOf(d)
  {
    Pow10Small();
    PaddedOfValue(stem[0..4]);
    PaddedOfValue(stem[5..7]);
    PaddedOfValue(stem[8..10]);
    assert stem == stem[0..4] + "-" + stem[5..7] + "-" + stem[8..10];
  }

  /** Two file names with one date are one file name. */
  lemma NameIsUnique(a: string, b: string)
    requires DateFromName(a).Some? && DateFromName(a) == DateFromName(b)
    ensures a == b
  {
    NameSpelling(a, PREFIX, SUFFIX);
    NameSpelling(b, PREFIX, SUFFIX);
  }

  lemma NameSpelling(name: string, prefix: string, suffix: string)
    requires prefix == PREFIX && suffix == SUFFIX && DateFromName(name).Some?
    ensures var d := DateFromName(name).value;
            0 <= d.year <= 9999 && 1 <= d.month <= 12 && 1 <= d.day <= 31
            && name == prefix + StemOf(d) + suffix
  {
    var rest := name[|prefix|..];
    var stem := rest[..|rest| - |suffix|];
    StemSpelling(stem);
    assert name == prefix + rest;
    assert rest == stem + suffix;
  }

  // ---------------------------------------------------------------------------
  // Sort keys.

  /** `days as u64 * 86_400`, wrapping as release arithmetic does. */
  function DayKey(days: int): nat {
    (days % U64) * SECONDS_PER_DAY % U64
  }

  function KeyOf(d: Date): Option<nat> {
    if d.month < 0 || d.day < 0 then None
    else
      match TryDaysFromCivil(d.year, d.month, d.day)
      case None => None
      case Some(days) => Some(DayKey(days))
  }

  lemma DayKeyExact(days: int)
    requires -800_000 <= days < 10_000_000
    ensures DayKey(days) == if days >= 0 then days * SECONDS_PER_DAY else U64 + days * SECONDS_PER_DAY
  {
    if days < 0 {
      var big := (U64 + days) * SECONDS_PER_DAY;
      assert days % U64 == U64 + days;
      assert big == U64 * (SECONDS_PER_DAY - 1) + (U64 + days * SECONDS_PER_DAY);
    }
  }

  predicate LogDate(d: Date) {
    0 <= d.year <= 9999 && ValidDate(d)
  }

  lemma LogDayRange(d: Date)
    requires LogDate(d)
    ensures -800_000 <= DayNumber(d) < 10_000_000
    ensures DayNumber(d) < 0 <==> d.year < 1970
    ensures KeyOf(d) == Some(DayKey(DayNumber(d)))
  {
    FirstDay();
    YearZero();
    LastDay();
    DayNumberIsMonotone(d, Date(1970, 1, 1));
    DayNumberIsMonotone(d, Date(0, 1, 1));
    DayNumberIsMonotone(d, Date(9999, 12, 31));
  }

  lemma FirstDay()
    ensures DayNumber(Date(1970, 1, 1)) == 0
  {
  }

  lemma YearZero()
    ensures DayNumber(Date(0, 1, 1)) == -719528
  {
  }

  lemma LastDay()
    ensures DayNumber(Date(9999, 12, 31)) == 2932896
  {
  }

  /** Sort keys order two different dates as the calendar does exactly when neither or both of them
      lie before 1970: an earlier date wraps around and ranks as the newest of all. */
  lemma KeyOrderExact(a: Date, b: Date)
    requires LogDate(a) && LogDate(b) && a != b
    ensures (KeyOf(a).value < KeyOf(b).value <==> Earlier(a, b)) <==> (a.year < 1970 <==> b.year < 1970)
    ensures KeyOf(a).value != KeyOf(b).value
  {
    LogDayRange(a);
    LogDayRange(b);
    DayKeyExact(DayNumber(a));
    DayKeyExact(DayNumber(b));
    DayNumberIsMonotone(a, b);
  }

  // ---------------------------------------------------------------------------
  // One pass over the directory.

  /** A file name as the directory holds it; only valid Unicode names can match the pattern. */
  datatype Name = Unicode(text: string) | Other(bytes: seq<nat>)

  datatype Entry = Entry(name: Name, isFile: bool)

  datatype Candidate = Candidate(key: nat, name: Name)

  datatype Report = Report(examined: nat, removed: nat, retained: nat)

  /** A file is attempted at most once in each of the two passes, and either attempt may fail. */
  datatype Pass = Expiry | Overflow

  type Removal = (Name, Pass) -> bool

  /** The calendar date of a well-formed daily log. */
  function LogDateOf(e: Entry): Option<Date> {
    if !e.isFile || !e.name.Unicode? then None
    else
      match DateFromName(e.name.text)
      case None => None
      case Some(d) => if ValidDate(d) then Some(d) else None
  }

  function CandidateOf(e: Entry): Option<Candidate> {
    if !e.isFile || !e.name.Unicode? then None
    else
      match DateFromName(e.name.text)
      case None => None
      case Some(d) =>
        match KeyOf(d)
        case None => None
        case Some(key) => Some(Candidate(key, e.name))
  }

  predicate Older(a: Candidate, b: Candidate) {
    a.key < b.key
  }

  function Cutoff(now: nat): nat {
    var span := LOG_RETENTION_DAYS * SECONDS_PER_DAY;
    if now >= span then now - span else 0
  }

  function Sorted(entries: seq<Entry>): seq<Candidate> {
    SortBy(Older, FilterMap(CandidateOf, entries))
  }

  predicate Outlives(removes: Removal, cutoff: nat, c: Candidate) {
    c.key >= cutoff || !removes(c.name, Expiry)
  }

  /** What the expiry pass keeps in its list, in order. */
  function Survivors(removes: Removal, cutoff: nat, cs: seq<Candidate>): (r: seq<Candidate>)
    ensures |r| <= |cs|
  {
    if cs == [] then []
    else
      var k := |cs| - 1;
      Survivors(removes, cutoff, cs[..k]) + (if Outlives(removes, cutoff, cs[k]) then [cs[k]] else [])
  }

  function Excess(cs: seq<Candidate>): nat {
    if |cs| > MAX_RETAINED_LOG_FILES then |cs| - MAX_RETAINED_LOG_FILES else 0
  }

  /** Of the surplus files, those whose deletion succeeds. */
  function Expelled(removes: Removal, cs: seq<Candidate>): (r: seq<Candidate>)
    ensures |r| <= |cs|
  {
    if cs == [] then []
    else
      var k := |cs| - 1;
      Expelled(removes, cs[..k]) + (if removes(cs[k].name, Overflow) then [cs[k]] else [])
  }

  function ExpiredNames(removes: Removal, cutoff: nat, cs: seq<Candidate>): set<Name> {
    set c | c in cs && !Outlives(removes, cutoff, c) :: c.name
  }

  function Names(cs: seq<Candidate>): set<Name> {
    set c | c in cs :: c.name
  }

  /** The names one pass takes away. */
  function Removed(removes: Removal, cutoff: nat, sorted: seq<Candidate>): set<Name> {
    var kept := Survivors(removes, cutoff, sorted);
    ExpiredNames(removes, cutoff, sorted) + Names(Expelled(removes, kept[..Excess(kept)]))
  }

  function Drop(gone: set<Name>, entries: seq<Entry>): seq<Entry> {
    if entries == [] then []
    else
      var k := |entries| - 1;
      Drop(gone, entries[..k]) + (if entries[k].name in gone then [] else [entries[k]])
  }

  function ReportOf(removes: Removal, cutoff: nat, sorted: seq<Candidate>): Report {
    var kept := Survivors(removes, cutoff, sorted);
    var excess := Excess(kept);
    Report(|sorted|, |sorted| - |kept| + |Expelled(removes, kept[..excess])|, |kept| - excess)
  }

  lemma {:induction false} DropNothing(entries: seq<Entry>)
    ensures Drop({}, entries) == entries
  {
    if entries != [] {
      DropNothing(entries[..|entries| - 1]);
    }
  }

  lemma {:induction false} DropMore(a: set<Name>, b: set<Name>, entries: seq<Entry>)
    ensures Drop(b, Drop(a, entries)) == Drop(a + b, entries)
  {
    if entries != [] {
      var k := |entries| - 1;
      DropMore(a, b, entries[..k]);
      var most := Drop(a, entries[..k]);
      assert (most + [entries[k]])[..|most|] == most && most + [] == most;
    }
  }

  lemma SurvivorStep(removes: Removal, cutoff: nat, cs: seq<Candidate>, i: nat)
    requires i < |cs|
    ensures Survivors(removes, cutoff, cs[..i + 1])
            == Survivors(removes, cutoff, cs[..i])
               + (if Outlives(removes, cutoff, cs[i]) then [cs[i]] else [])
    ensures var gone := ExpiredNames(removes, cutoff, cs[..i]);
            ExpiredNames(removes, cutoff, cs[..i + 1])
            == if Outlives(removes, cutoff, cs[i]) then gone else gone + {cs[i].name}
  {
    assert cs[..i + 1][..i] == cs[..i];
    assert forall c :: c in cs[..i + 1] <==> c in cs[..i] || c == cs[i];
  }

  lemma ExpelledStep(removes: Removal, cs: seq<Candidate>, i: nat)
    requires i < |cs|
    ensures Expelled(removes, cs[..i + 1])
            == Expelled(removes, cs[..i]) + (if removes(cs[i].name, Overflow) then [cs[i]] else [])
    ensures var gone := Names(Expelled(removes, cs[..i]));
            Names(Expelled(removes, cs[..i + 1]))
            == if removes(cs[i].name, Overflow) then gone + {cs[i].name} else gone
  {
    assert cs[..i + 1][..i] == cs[..i];
    var before := Expelled(removes, cs[..i]);
    assert before + [] == before;
  }

  lemma FilterMapStep<T, U>(f: T -> Option<U>, s: seq<T>, i: nat)
    requires i < |s|
    ensures FilterMap(f, s[..i + 1]) == FilterMap(f, s[..i]) + (if f(s[i]).Some? then [f(s[i]).value] else [])
  {
    assert s[..i + 1][..i] == s[..i];
  }

  /** The log directory. Listing it may fail, and so may each deletion. */
  class LogDirectory {
    var entries: seq<Entry>

    method RemoveFile(name: Name, pass: Pass, removes: Removal) returns (ok: bool)
      modifies this
      ensures ok == removes(name, pass)
      ensures entries == if ok then Drop({name}, old(entries)) else old(entries)
    {
      ok := removes(name, pass);
      if ok {
        entries := Drop({name}, entries);
      }
    }

    method Candidates() returns (candidates: seq<Candidate>)
      ensures candidates == FilterMap(CandidateOf, entries)
    {
      candidates := [];
      for i := 0 to |entries|
        invariant candidates == FilterMap(CandidateOf, entries[..i])
      {
        FilterMapStep(CandidateOf, entries, i);
        var found := CandidateOf(entries[i]);
        if found.Some? {
          candidates := candidates + [found.value];
        }
      }
      assert entries[..|entries|] == entries;
    }

    /** Deletes what is older than the cutoff; what cannot be deleted stays in the list. */
    method Expire(sorted: seq<Candidate>, cutoff: nat, removes: Removal)
      returns (kept: seq<Candidate>, removed: nat)
      modifies this
      ensures kept == Survivors(removes, cutoff, sorted) && removed == |sorted| - |kept|
      ensures entries == Drop(ExpiredNames(removes, cutoff, sorted), old(entries))
    {
      kept, removed := [], 0;
      DropNothing(entries);
      assert ExpiredNames(removes, cutoff, sorted[..0]) == {};
      for i := 0 to |sorted|
        invariant kept == Survivors(removes, cutoff, sorted[..i]) && removed == i - |kept|
        invariant entries == Drop(ExpiredNames(removes, cutoff, sorted[..i]), old(entries))
      {
        var c := sorted[i];
        SurvivorStep(removes, cutoff, sorted, i);
        if c.key < cutoff {
          DropMore(ExpiredNames(removes, cutoff, sorted[..i]), {c.name}, old(entries));
          var ok := RemoveFile(c.name, Expiry, removes);
          if ok {
            removed := removed + 1;
          } else {
            kept := kept + [c];
          }
        } else {
          kept := kept + [c];
        }
      }
      assert sorted[..|sorted|] == sorted;
    }

    /** Deletes the given files and counts the deletions that succeed. */
    method Expel(doomed: seq<Candidate>, removes: Removal) returns (removed: nat)
      modifies this
      ensures removed == |Expelled(removes, doomed)|
      ensures entries == Drop(Names(Expelled(removes, doomed)), old(entries))
    {
      removed := 0;
      DropNothing(entries);
      assert Names(Expelled(removes, doomed[..0])) == {};
      for i := 0 to |doomed|
        invariant removed == |Expelled(removes, doomed[..i])|
        invariant entries == Drop(Names(Expelled(removes, doomed[..i])), old(entries))
      {
        var c := doomed[i];
        ExpelledStep(removes, doomed, i);
        DropMore(Names(Expelled(removes, doomed[..i])), {c.name}, old(entries));
        var ok := RemoveFile(c.name, Overflow, removes);
        if ok {
          removed := removed + 1;
        }
      }
      assert doomed[..|doomed|] == doomed;
    }

    method PurgeSorted(sorted: seq<Candidate>, cutoff: nat, removes: Removal) returns (report: Report)
      modifies this
      ensures report == ReportOf(removes, cutoff, sorted)
      ensures entries == Drop(Removed(removes, cutoff, sorted), old(entries))
    {
      var retained, removed := Expire(sorted, cutoff, removes);
      var excess := Excess(retained);
      var more := Expel(retained[..excess], removes);
      DropMore(ExpiredNames(removes, cutoff, sorted), Names(Expelled(removes, retained[..excess])),
               old(entries));
      report := Report(|sorted|, removed + more, |retained| - excess);
    }

    /** `purge_expired_logs`. */
    method PurgeExpiredLogs(now: nat, listable: bool, removes: Removal) returns (report: Option<Report>)
      modifies this
      ensures !listable ==> report == None && entries == old(entries)
      ensures listable ==> report == Some(ReportOf(removes, Cutoff(now), Sorted(old(entries))))
      ensures listable ==>
        entries == Drop(Removed(removes, Cutoff(now), Sorted(old(entries))), old(entries))
    {
      if !listable {
        return None;
      }
      var candidates := Candidates();
      var done := PurgeSorted(SortBy(Older, candidates), Cutoff(now), removes);
      report := Some(done);
    }
  }

  // ---------------------------------------------------------------------------
  // What a pass amounts to.

  predicate DistinctNames(entries: seq<Entry>) {
    forall i, j :: 0 <= i < j < |entries| ==> entries[i].name != entries[j].name
  }

  ghost predicate AllRemovable(removes: Removal) {
    forall name, pass :: removes(name, pass)
  }

  lemma CandidateIsLog(e: Entry)
    ensures CandidateOf(e).Some? <==> LogDateOf(e).Some?
    ensures CandidateOf(e).Some? ==>
              LogDate(LogDateOf(e).value) && e.name.Unicode? && DateFromName(e.name.text) == LogDateOf(e)
              && CandidateOf(e).value == Candidate(DayKey(DayNumber(LogDateOf(e).value)), e.name)
  {
    if e.isFile && e.name.Unicode? && DateFromName(e.name.text).Some? {
      var d := DateFromName(e.name.text).value;
      NameSpelling(e.name.text, PREFIX, SUFFIX);
      TryIsDefinedOnValidDates(d.year, d.month, d.day);
      if ValidDate(d) {
        LogDayRange(d);
      }
    }
  }

  /** Two logs share a sort key only when they share the name. */
  lemma KeyDecidesName(a: Entry, b: Entry)
    requires CandidateOf(a).Some? && CandidateOf(b).Some?
    requires CandidateOf(a).value.key == CandidateOf(b).value.key
    ensures a.name == b.name
  {
    CandidateIsLog(a);
    CandidateIsLog(b);
    var da, db := LogDateOf(a).value, LogDateOf(b).value;
    LogDayRange(da);
    LogDayRange(db);
    if da != db {
      KeyOrderExact(da, db);
    }
    NameIsUnique(a.name.text, b.name.text);
  }

  lemma CandidateKeepsName(e: Entry)
    ensures CandidateOf(e).Some? ==> CandidateOf(e).value.name == e.name
  {
  }

  lemma {:induction false} CandidatesDistinct(entries: seq<Entry>)
    requires DistinctNames(entries)
    ensures Distinct(FilterMap(CandidateOf, entries))
  {
    if entries != [] {
      var k := |entries| - 1;
      var before := FilterMap(CandidateOf, entries[..k]);
      CandidatesDistinct(entries[..k]);
      CandidateKeepsName(entries[k]);
      forall c | c in before ensures c.name != entries[k].name {
        FilterMapMember(CandidateOf, entries[..k], c);
        var e :| e in entries[..k] && CandidateOf(e) == Some(c);
        CandidateKeepsName(e);
      }
      DistinctSnoc(before, CandidateOf(entries[k]));
    }
  }

  lemma DistinctSnoc<T>(s: seq<T>, o: Option<T>)
    requires Distinct(s) && (o.Some? ==> o.value !in s)
    ensures Distinct(match o case Some(x) => s + [x] case None => s)
  {
  }

  predicate StrictKeys(cs: seq<Candidate>) {
    forall i, j :: 0 <= i < j < |cs| ==> cs[i].key < cs[j].key
  }

  lemma SortedMembers(entries: seq<Entry>, c: Candidate)
    ensures c in Sorted(entries) <==> exists e :: e in entries && CandidateOf(e) == Some(c)
  {
    var cs := FilterMap(CandidateOf, entries);
    SortByPermutes(Older, cs);
    BagSize(Sorted(entries), cs);
    FilterMapMember(CandidateOf, entries, c);
  }

  /** Sorting the candidates of a directory never meets two equal keys. */
  lemma SortedIsStrict(entries: seq<Entry>)
    requires DistinctNames(entries)
    ensures StrictKeys(Sorted(entries))
  {
    var cs, s := FilterMap(CandidateOf, entries), Sorted(entries);
    SortByPermutes(Older, cs);
    SortBySorted(Older, cs);
    CandidatesDistinct(entries);
    DistinctPermutes(cs, s);
    forall i, j | 0 <= i < j < |s| ensures s[i].key < s[j].key {
      assert !Older(s[j], s[i]);
      if s[i].key == s[j].key {
        SortedMembers(entries, s[i]);
        SortedMembers(entries, s[j]);
        var a :| a in entries && CandidateOf(a) == Some(s[i]);
        var b :| b in entries && CandidateOf(b) == Some(s[j]);
        KeyDecidesName(a, b);
        CandidateKeepsName(a);
        CandidateKeepsName(b);
      }
    }
  }

  // --- The list after both passes, when every deletion succeeds.

  function Expiring(cutoff: nat, cs: seq<Candidate>): (m: nat)
    ensures m <= |cs|
  {
    if cs == [] || cs[|cs| - 1].key < cutoff then |cs| else Expiring(cutoff, cs[..|cs| - 1])
  }

  lemma {:induction false} ExpiringSplits(cutoff: nat, cs: seq<Candidate>)
    requires StrictKeys(cs)
    ensures var m := Expiring(cutoff, cs); forall i :: 0 <= i < |cs| ==> (i < m <==> cs[i].key < cutoff)
  {
    if cs != [] && cs[|cs| - 1].key >= cutoff {
      ExpiringSplits(cutoff, cs[..|cs| - 1]);
    }
  }

  lemma {:induction false} SurvivorsAreNewest(removes: Removal, cutoff: nat, cs: seq<Candidate>, m: nat)
    requires AllRemovable(removes) && m <= |cs|
    requires forall i :: 0 <= i < |cs| ==> (i < m <==> cs[i].key < cutoff)
    ensures Survivors(removes, cutoff, cs) == cs[m..]
  {
    if cs != [] {
      var k := |cs| - 1;
      SurvivorsAreNewest(removes, cutoff, cs[..k], if m <= k then m else k);
      assert m <= k ==> cs[m..] == cs[..k][m..] + [cs[k]];
    }
  }

  lemma {:induction false} AllExpelled(removes: Removal, cs: seq<Candidate>)
    requires AllRemovable(removes)
    ensures Expelled(removes, cs) == cs
  {
    if cs != [] {
      AllExpelled(removes, cs[..|cs| - 1]);
    }
  }

  function Cut(cutoff: nat, cs: seq<Candidate>): (k: nat)
    ensures k <= |cs|
  {
    var m := Expiring(cutoff, cs);
    if |cs| - m > MAX_RETAINED_LOG_FILES then |cs| - MAX_RETAINED_LOG_FILES else m
  }

  lemma RemovedIsPrefix(removes: Removal, cutoff: nat, cs: seq<Candidate>)
    requires AllRemovable(removes) && StrictKeys(cs)
    ensures Removed(removes, cutoff, cs) == Names(cs[..Cut(cutoff, cs)])
  {
    var m := Expiring(cutoff, cs);
    ExpiringSplits(cutoff, cs);
    SurvivorsAreNewest(removes, cutoff, cs, m);
    var excess := Excess(cs[m..]);
    AllExpelled(removes, cs[m..][..excess]);
    ExpiredArePrefix(removes, cutoff, cs, m);
    NamesJoin(cs, m, excess);
  }

  lemma ExpiredArePrefix(removes: Removal, cutoff: nat, cs: seq<Candidate>, m: nat)
    requires AllRemovable(removes) && m <= |cs|
    requires forall i :: 0 <= i < |cs| ==> (i < m <==> cs[i].key < cutoff)
    ensures ExpiredNames(removes, cutoff, cs) == Names(cs[..m])
  {
    forall c | c in cs ensures c.key < cutoff <==> c in cs[..m] {
    }
    assert forall c :: c in cs && !Outlives(removes, cutoff, c) <==> c in cs[..m];
  }

  lemma NamesJoin(cs: seq<Candidate>, m: nat, n: nat)
    requires m + n <= |cs|
    ensures Names(cs[..m]) + Names(cs[m..][..n]) == Names(cs[..m + n])
  {
    assert cs[..m + n] == cs[..m] + cs[m..][..n];
  }

  // --- Ranks.

  function NewerThan(key: nat): Candidate -> Option<Candidate> {
    (c: Candidate) => if c.key > key then Some(c) else None
  }

  lemma {:induction false} NewerInSorted(key: nat, cs: seq<Candidate>, m: nat)
    requires m <= |cs|
    requires forall i :: 0 <= i < |cs| ==> (i < m <==> cs[i].key <= key)
    ensures |FilterMap(NewerThan(key), cs)| == |cs| - m
  {
    if cs != [] {
      var k := |cs| - 1;
      NewerInSorted(key, cs[..k], if m <= k then m else k);
    }
  }

  /** How many candidates of the directory have a greater key. */
  function Rank(key: nat, entries: seq<Entry>): nat {
    |FilterMap(NewerThan(key), FilterMap(CandidateOf, entries))|
  }

  lemma RankInSorted(entries: seq<Entry>, i: nat)
    requires DistinctNames(entries) && i < |Sorted(entries)|
    ensures Rank(Sorted(entries)[i].key, entries) == |Sorted(entries)| - 1 - i
  {
    var cs, s := FilterMap(CandidateOf, entries), Sorted(entries);
    var key := s[i].key;
    SortByPermutes(Older, cs);
    FilterMapPermutes(NewerThan(key), cs, s);
    BagSize(FilterMap(NewerThan(key), cs), FilterMap(NewerThan(key), s));
    SortedIsStrict(entries);
    NewerInSorted(key, s, i + 1);
  }

  // ---------------------------------------------------------------------------
  // Main results.

  function Purged(removes: Removal, now: nat, entries: seq<Entry>): seq<Entry> {
    Drop(Removed(removes, Cutoff(now), Sorted(entries)), entries)
  }

  lemma {:induction false} DropMember(gone: set<Name>, entries: seq<Entry>, e: Entry)
    ensures e in Drop(gone, entries) <==> e in entries && e.name !in gone
  {
    if entries != [] {
      var k := |entries| - 1;
      DropMember(gone, entries[..k], e);
      assert e in entries <==> e in entries[..k] || e == entries[k];
    }
  }

  lemma {:induction false} SurvivorsMember(removes: Removal, cutoff: nat, cs: seq<Candidate>, c: Candidate)
    requires c in Survivors(removes, cutoff, cs)
    ensures c in cs
  {
    var k := |cs| - 1;
    if c != cs[k] {
      SurvivorsMember(removes, cutoff, cs[..k], c);
    }
  }

  lemma {:induction false} ExpelledMember(removes: Removal, cs: seq<Candidate>, c: Candidate)
    requires c in Expelled(removes, cs)
    ensures c in cs
  {
    var k := |cs| - 1;
    if c != cs[k] {
      ExpelledMember(removes, cs[..k], c);
    }
  }

  lemma RemovedAreCandidates(removes: Removal, cutoff: nat, cs: seq<Candidate>, name: Name)
    requires name in Removed(removes, cutoff, cs)
    ensures name in Names(cs)
  {
    var kept := Survivors(removes, cutoff, cs);
    var surplus := kept[..Excess(kept)];
    if name !in ExpiredNames(removes, cutoff, cs) {
      var c :| c in Expelled(removes, surplus) && c.name == name;
      ExpelledMember(removes, surplus, c);
      SurvivorsMember(removes, cutoff, cs, c);
    }
  }

  lemma SameNameSameEntry(entries: seq<Entry>, a: Entry, b: Entry)
    requires DistinctNames(entries) && a in entries && b in entries && a.name == b.name
    ensures a == b
  {
    var i :| 0 <= i < |entries| && entries[i] == a;
    var j :| 0 <= j < |entries| && entries[j] == b;
  }

  lemma CandidateOwner(entries: seq<Entry>, c: Candidate, e: Entry)
    requires DistinctNames(entries) && c in Sorted(entries) && e in entries && e.name == c.name
    ensures CandidateOf(e) == Some(c)
  {
    SortedMembers(entries, c);
    var x :| x in entries && CandidateOf(x) == Some(c);
    CandidateKeepsName(x);
    SameNameSameEntry(entries, x, e);
  }

  /** Directories, foreign names and impossible dates survive every pass, whatever fails. */
  lemma ForeignFilesUntouched(removes: Removal, now: nat, entries: seq<Entry>, e: Entry)
    requires DistinctNames(entries) && LogDateOf(e) == None
    ensures e in Purged(removes, now, entries) <==> e in entries
  {
    var cs := Sorted(entries);
    var gone := Removed(removes, Cutoff(now), cs);
    DropMember(gone, entries, e);
    if e in entries && e.name in gone {
      RemovedAreCandidates(removes, Cutoff(now), cs, e.name);
      var c :| c in cs && c.name == e.name;
      CandidateOwner(entries, c, e);
      CandidateIsLog(e);
    }
  }

  lemma CutIsRank(cutoff: nat, cs: seq<Candidate>, i: nat)
    requires StrictKeys(cs) && i < |cs|
    ensures i >= Cut(cutoff, cs) <==> cs[i].key >= cutoff && |cs| - 1 - i < MAX_RETAINED_LOG_FILES
  {
    ExpiringSplits(cutoff, cs);
  }

  // --- Any failures.

  function Surviving(removes: Removal, cutoff: nat): Candidate -> Option<Candidate> {
    (c: Candidate) => if Outlives(removes, cutoff, c) then Some(c) else None
  }

  lemma {:induction false} SurvivorsFiltered(removes: Removal, cutoff: nat, cs: seq<Candidate>)
    ensures Survivors(removes, cutoff, cs) == FilterMap(Surviving(removes, cutoff), cs)
  {
    if cs != [] {
      SurvivorsFiltered(removes, cutoff, cs[..|cs| - 1]);
    }
  }

  lemma {:induction false} SurvivorsStrict(removes: Removal, cutoff: nat, cs: seq<Candidate>)
    requires StrictKeys(cs)
    ensures StrictKeys(Survivors(removes, cutoff, cs))
  {
    if cs != [] {
      var k := |cs| - 1;
      SurvivorsStrict(removes, cutoff, cs[..k]);
      forall c | c in Survivors(removes, cutoff, cs[..k]) ensures c.key < cs[k].key {
        SurvivorsMember(removes, cutoff, cs[..k], c);
      }
    }
  }

  lemma {:induction false} ExpelledExactly(removes: Removal, cs: seq<Candidate>, c: Candidate)
    ensures c in Expelled(removes, cs) <==> c in cs && removes(c.name, Overflow)
  {
    if cs != [] {
      var k := |cs| - 1;
      ExpelledExactly(removes, cs[..k], c);
      assert c in cs <==> c in cs[..k] || c == cs[k];
    }
  }

  /** How many of the logs that the expiry pass leaves have a greater key. */
  function SurvivorRank(removes: Removal, cutoff: nat, key: nat, entries: seq<Entry>): nat {
    |FilterMap(NewerThan(key), FilterMap(Surviving(removes, cutoff), FilterMap(CandidateOf, entries)))|
  }

  lemma SurvivorRankIs(removes: Removal, cutoff: nat, entries: seq<Entry>, i: nat)
    requires DistinctNames(entries) && i < |Survivors(removes, cutoff, Sorted(entries))|
    ensures var kept := Survivors(removes, cutoff, Sorted(entries));
            SurvivorRank(removes, cutoff, kept[i].key, entries) == |kept| - 1 - i
  {
    var cs, s := FilterMap(CandidateOf, entries), Sorted(entries);
    var kept := Survivors(removes, cutoff, s);
    SortByPermutes(Older, cs);
    FilteredCount(Surviving(removes, cutoff), NewerThan(kept[i].key), cs, s);
    SurvivorsFiltered(removes, cutoff, s);
    SortedIsStrict(entries);
    SurvivorsStrict(removes, cutoff, s);
    NewerLeft(kept, i);
  }

  lemma NewerLeft(cs: seq<Candidate>, i: nat)
    requires StrictKeys(cs) && i < |cs|
    ensures |FilterMap(NewerThan(cs[i].key), cs)| == |cs| - 1 - i
  {
    NewerInSorted(cs[i].key, cs, i + 1);
  }

  /** Filtering twice leaves as many, whatever the order. */
  lemma FilteredCount<T, U, V>(f: T -> Option<U>, g: U -> Option<V>, a: seq<T>, b: seq<T>)
    requires multiset(a) == multiset(b)
    ensures |FilterMap(g, FilterMap(f, a))| == |FilterMap(g, FilterMap(f, b))|
  {
    FilterMapPermutes(f, a, b);
    FilterMapPermutes(g, FilterMap(f, a), FilterMap(f, b));
    BagSize(FilterMap(g, FilterMap(f, a)), FilterMap(g, FilterMap(f, b)));
  }

  /** A candidate is known by its name. */
  lemma NamedExactly(entries: seq<Entry>, part: seq<Candidate>, e: Entry, c: Candidate)
    requires DistinctNames(entries) && e in entries && CandidateOf(e) == Some(c)
    requires forall x :: x in part ==> x in Sorted(entries)
    ensures e.name in Names(part) <==> c in part
  {
    CandidateKeepsName(e);
    if e.name in Names(part) {
      var x :| x in part && x.name == e.name;
      CandidateOwner(entries, x, e);
    }
  }

  lemma ExpiredExactly(removes: Removal, cutoff: nat, entries: seq<Entry>, e: Entry, c: Candidate)
    requires DistinctNames(entries) && e in entries && CandidateOf(e) == Some(c)
    ensures e.name in ExpiredNames(removes, cutoff, Sorted(entries)) <==> !Outlives(removes, cutoff, c)
  {
    CandidateKeepsName(e);
    SortedMembers(entries, c);
    if x :| x in Sorted(entries) && !Outlives(removes, cutoff, x) && x.name == e.name {
      CandidateOwner(entries, x, e);
    }
  }

  lemma SurplusExactly(removes: Removal, cutoff: nat, entries: seq<Entry>, c: Candidate)
    requires DistinctNames(entries) && c in Survivors(removes, cutoff, Sorted(entries))
    ensures var kept := Survivors(removes, cutoff, Sorted(entries));
            c in kept[..Excess(kept)] <==> SurvivorRank(removes, cutoff, c.key, entries) >= 64
  {
    var kept := Survivors(removes, cutoff, Sorted(entries));
    var i :| 0 <= i < |kept| && kept[i] == c;
    SurvivorRankIs(removes, cutoff, entries, i);
    SortedIsStrict(entries);
    SurvivorsStrict(removes, cutoff, Sorted(entries));
    InFront(kept, i, Excess(kept));
  }

  lemma InFront(cs: seq<Candidate>, i: nat, n: nat)
    requires StrictKeys(cs) && i < |cs| && n <= |cs|
    ensures cs[i] in cs[..n] <==> i < n
  {
    if j :| 0 <= j < n && cs[..n][j] == cs[i] {
      assert cs[j].key == cs[i].key;
    }
    assert i < n ==> cs[..n][i] == cs[i];
  }

  /** Whatever deletions fail, a log stays exactly when it was not due or resisted, and was not among the
      surplus or resisted that too. It is due before the cutoff, and surplus with 64 newer ones left. */
  lemma PurgeExactly(removes: Removal, now: nat, entries: seq<Entry>, e: Entry, c: Candidate)
    requires DistinctNames(entries) && e in entries && CandidateOf(e) == Some(c)
    ensures e in Purged(removes, now, entries)
            <==> && (c.key >= Cutoff(now) || !removes(e.name, Expiry))
                 && (SurvivorRank(removes, Cutoff(now), c.key, entries) < 64 || !removes(e.name, Overflow))
  {
    var cs, cutoff := Sorted(entries), Cutoff(now);
    var kept := Survivors(removes, cutoff, cs);
    var surplus := kept[..Excess(kept)];
    CandidateKeepsName(e);
    SortedMembers(entries, c);
    DropMember(Removed(removes, cutoff, cs), entries, e);
    ExpiredExactly(removes, cutoff, entries, e, c);
    forall x | x in Expelled(removes, surplus) ensures x in cs {
      ExpelledMember(removes, surplus, x);
      SurvivorsMember(removes, cutoff, cs, x);
    }
    NamedExactly(entries, Expelled(removes, surplus), e, c);
    ExpelledExactly(removes, surplus, c);
    SurvivorsFiltered(removes, cutoff, cs);
    FilterMapMember(Surviving(removes, cutoff), cs, c);
    if Outlives(removes, cutoff, c) {
      SurplusExactly(removes, cutoff, entries, c);
    }
  }

  /** With every deletion succeeding, a log stays exactly when its key is not below the cutoff and
      fewer than 64 logs have a greater key. */
  lemma PurgeByKeys(removes: Removal, now: nat, entries: seq<Entry>, e: Entry)
    requires DistinctNames(entries) && AllRemovable(removes) && e in entries && CandidateOf(e).Some?
    ensures var key := CandidateOf(e).value.key;
            e in Purged(removes, now, entries)
            <==> key >= Cutoff(now) && Rank(key, entries) < MAX_RETAINED_LOG_FILES
  {
    var cs, c := Sorted(entries), CandidateOf(e).value;
    var cutoff := Cutoff(now);
    SortedIsStrict(entries);
    RemovedIsPrefix(removes, cutoff, cs);
    DropMember(Removed(removes, cutoff, cs), entries, e);
    SortedMembers(entries, c);
    var i :| 0 <= i < |cs| && cs[i] == c;
    RankInSorted(entries, i);
    CutIsRank(cutoff, cs, i);
    CandidateKeepsName(e);
    NamedInPrefix(entries, e, i, Cut(cutoff, cs));
  }

  lemma NamedInPrefix(entries: seq<Entry>, e: Entry, i: nat, k: nat)
    requires DistinctNames(entries) && e in entries && StrictKeys(Sorted(entries))
    requires i < |Sorted(entries)| && k <= |Sorted(entries)| && CandidateOf(e) == Some(Sorted(entries)[i])
    ensures e.name in Names(Sorted(entries)[..k]) <==> i < k
  {
    var cs := Sorted(entries);
    CandidateKeepsName(e);
    if e.name in Names(cs[..k]) {
      var j :| 0 <= j < k && cs[j].name == e.name;
      CandidateOwner(entries, cs[j], e);
      assert cs[i] == cs[j];
    }
    if i < k {
      assert cs[..k][i] == cs[i];
    }
  }

  function LaterLog(d: Date): Entry -> Option<Date> {
    (e: Entry) =>
      match LogDateOf(e)
      case None => None
      case Some(x) => if Earlier(d, x) then Some(x) else None
  }

  /** The dates of the logs that are later than `d`. */
  function LaterLogs(d: Date, entries: seq<Entry>): seq<Date> {
    FilterMap(LaterLog(d), entries)
  }

  ghost predicate Modern(entries: seq<Entry>) {
    forall e :: e in entries && LogDateOf(e).Some? ==> LogDateOf(e).value.year >= 1970
  }

  lemma ModernKey(e: Entry)
    requires LogDateOf(e).Some? && LogDateOf(e).value.year >= 1970
    ensures ValidDate(LogDateOf(e).value) && DayNumber(LogDateOf(e).value) >= 0
    ensures CandidateOf(e) == Some(Candidate(DayNumber(LogDateOf(e).value) * SECONDS_PER_DAY, e.name))
  {
    CandidateIsLog(e);
    LogDayRange(LogDateOf(e).value);
    DayKeyExact(DayNumber(LogDateOf(e).value));
  }

  lemma NewerIsLater(e: Entry, x: Entry)
    requires LogDateOf(e).Some? && LogDateOf(e).value.year >= 1970
    requires LogDateOf(x).Some? ==> LogDateOf(x).value.year >= 1970
    ensures Then(CandidateOf, NewerThan(CandidateOf(e).value.key))(x).Some?
            <==> LaterLog(LogDateOf(e).value)(x).Some?
  {
    ModernKey(e);
    CandidateIsLog(x);
    if LogDateOf(x).Some? {
      ModernKey(x);
      DayNumberIsMonotone(LogDateOf(e).value, LogDateOf(x).value);
    }
  }

  lemma RankCountsLaterLogs(entries: seq<Entry>, e: Entry)
    requires Modern(entries) && e in entries && CandidateOf(e).Some?
    ensures LogDateOf(e).Some?
    ensures Rank(CandidateOf(e).value.key, entries) == |LaterLogs(LogDateOf(e).value, entries)|
  {
    CandidateIsLog(e);
    var key, d := CandidateOf(e).value.key, LogDateOf(e).value;
    FilterMapThen(CandidateOf, NewerThan(key), entries);
    forall x | x in entries ensures Then(CandidateOf, NewerThan(key))(x).Some? <==> LaterLog(d)(x).Some? {
      NewerIsLater(e, x);
    }
    FilterMapCount(Then(CandidateOf, NewerThan(key)), LaterLog(d), entries);
  }

  /** Among logs dated 1970 to 9999, with every deletion succeeding, the pass keeps exactly those
      whose day started no more than thirty days ago and that belong to the 64 latest dates. */
  lemma PurgeKeepsNewest(removes: Removal, now: nat, entries: seq<Entry>, e: Entry)
    requires DistinctNames(entries) && AllRemovable(removes) && Modern(entries)
    requires e in entries && LogDateOf(e).Some?
    ensures var d := LogDateOf(e).value;
            e in Purged(removes, now, entries)
            <==> DayNumber(d) * 86_400 + 30 * 86_400 >= now && |LaterLogs(d, entries)| < 64
  {
    ModernKey(e);
    PurgeByKeys(removes, now, entries, e);
    RankCountsLaterLogs(entries, e);
  }

  /** A log dated before 1970 is never expired, however old, and ranks as newer than every later
      log: its key lies beyond any clock value short of the last two thousand years that 64 bits
      can count. */
  lemma AncientLogOutlives(removes: Removal, now: nat, e: Entry, x: Entry)
    requires LogDateOf(e).Some? && LogDateOf(e).value.year < 1970 && now < U64 - 70_000_000_000
    requires LogDateOf(x).Some? && LogDateOf(x).value.year >= 1970
    ensures CandidateOf(e).Some? && Outlives(removes, Cutoff(now), CandidateOf(e).value)
    ensures CandidateOf(x).Some? && Older(CandidateOf(x).value, CandidateOf(e).value)
  {
    AncientKey(e);
    ModernKeyBound(x);
  }

  lemma ModernKeyBound(e: Entry)
    requires LogDateOf(e).Some? && LogDateOf(e).value.year >= 1970
    ensures CandidateOf(e).Some? && CandidateOf(e).value.key < 1_000_000_000_000
  {
    CandidateIsLog(e);
    LogDayRange(LogDateOf(e).value);
    DayKeyExact(DayNumber(LogDateOf(e).value));
  }

  lemma AncientKey(e: Entry)
    requires LogDateOf(e).Some? && LogDateOf(e).value.year < 1970
    ensures CandidateOf(e).Some? && CandidateOf(e).value.key >= U64 - 70_000_000_000
  {
    CandidateIsLog(e);
    LogDayRange(LogDateOf(e).value);
    DayKeyExact(DayNumber(LogDateOf(e).value));
  }

  lemma {:induction false} ExpelledAll(removes: Removal, cs: seq<Candidate>)
    ensures |Expelled(removes, cs)| == |cs| <==> forall i :: 0 <= i < |cs| ==> removes(cs[i].name, Overflow)
  {
    if cs != [] {
      ExpelledAll(removes, cs[..|cs| - 1]);
    }
  }

  lemma SurplusGone(removes: Removal, kept: seq<Candidate>, k: nat)
    requires k <= |kept|
    ensures |Expelled(removes, kept[..k])| == k <==> forall i :: 0 <= i < k ==> removes(kept[i].name, Overflow)
  {
    ExpelledAll(removes, kept[..k]);
    assert forall i :: 0 <= i < k ==> kept[..k][i] == kept[i];
  }

  /** Every deletion of the surplus succeeds. */
  predicate AllGone(removes: Removal, kept: seq<Candidate>) {
    forall i :: 0 <= i < Excess(kept) ==> removes(kept[i].name, Overflow)
  }

  lemma ReportSums(removes: Removal, cutoff: nat, sorted: seq<Candidate>, report: Report)
    requires report == ReportOf(removes, cutoff, sorted)
    ensures report.examined == |sorted| && report.retained <= MAX_RETAINED_LOG_FILES
    ensures report.removed + report.retained <= report.examined
    ensures report.examined == report.removed + report.retained <==> AllGone(removes, Survivors(removes, cutoff, sorted))
  {
    var kept := Survivors(removes, cutoff, sorted);
    var k := Excess(kept);
    var gone := |Expelled(removes, kept[..k])|;
    assert report == Report(|sorted|, |sorted| - |kept| + gone, |kept| - k);
    assert report.examined == report.removed + report.retained <==> gone == k;
    SurplusGone(removes, kept, k);
  }

  lemma SortedCountsLogs(entries: seq<Entry>)
    ensures |Sorted(entries)| == |FilterMap(LogDateOf, entries)|
  {
    var cs := FilterMap(CandidateOf, entries);
    SortByPermutes(Older, cs);
    BagSize(cs, Sorted(entries));
    forall e | e in entries ensures CandidateOf(e).Some? <==> LogDateOf(e).Some? {
      CandidateIsLog(e);
    }
    FilterMapCount(CandidateOf, LogDateOf, entries);
  }

  // --- The logs left in the directory.

  predicate NamesApart(cs: seq<Candidate>) {
    forall i, j :: 0 <= i < j < |cs| ==> cs[i].name != cs[j].name
  }

  lemma SortedNamesApart(entries: seq<Entry>)
    requires DistinctNames(entries)
    ensures NamesApart(Sorted(entries))
  {
    var s := Sorted(entries);
    SortedIsStrict(entries);
    forall i, j | 0 <= i < j < |s| ensures s[i].name != s[j].name {
      assert s[i].key < s[j].key;
      if s[i].name == s[j].name {
        SortedMembers(entries, s[j]);
        var e :| e in entries && CandidateOf(e) == Some(s[j]);
        CandidateKeepsName(e);
        CandidateOwner(entries, s[i], e);
      }
    }
  }

  lemma {:induction false} NameCount(cs: seq<Candidate>)
    requires NamesApart(cs)
    ensures |Names(cs)| == |cs|
  {
    if cs != [] {
      var k := |cs| - 1;
      NameCount(cs[..k]);
      assert Names(cs) == Names(cs[..k]) + {cs[k].name};
    }
  }

  lemma {:induction false} ExpelledApart(removes: Removal, cs: seq<Candidate>)
    requires NamesApart(cs)
    ensures NamesApart(Expelled(removes, cs))
  {
    if cs != [] {
      var k := |cs| - 1;
      ExpelledApart(removes, cs[..k]);
      forall c | c in Expelled(removes, cs[..k]) ensures c.name != cs[k].name {
        ExpelledMember(removes, cs[..k], c);
      }
    }
  }

  /** The expired files are as many as left the list. */
  lemma {:induction false} ExpiredCount(removes: Removal, cutoff: nat, cs: seq<Candidate>)
    requires NamesApart(cs)
    ensures |ExpiredNames(removes, cutoff, cs)| == |cs| - |Survivors(removes, cutoff, cs)|
  {
    if cs != [] {
      var k := |cs| - 1;
      ExpiredCount(removes, cutoff, cs[..k]);
      assert cs[..k + 1] == cs;
      SurvivorStep(removes, cutoff, cs, k);
      assert cs[k].name !in ExpiredNames(removes, cutoff, cs[..k]);
    }
  }

  lemma {:induction false} SurvivorsApart(removes: Removal, cutoff: nat, cs: seq<Candidate>)
    requires NamesApart(cs)
    ensures NamesApart(Survivors(removes, cutoff, cs))
  {
    if cs != [] {
      var k := |cs| - 1;
      SurvivorsApart(removes, cutoff, cs[..k]);
      forall c | c in Survivors(removes, cutoff, cs[..k]) ensures c.name != cs[k].name {
        SurvivorsMember(removes, cutoff, cs[..k], c);
      }
    }
  }

  lemma {:induction false} SurvivorsOutlive(removes: Removal, cutoff: nat, cs: seq<Candidate>, c: Candidate)
    requires c in Survivors(removes, cutoff, cs)
    ensures Outlives(removes, cutoff, c)
  {
    var k := |cs| - 1;
    if c in Survivors(removes, cutoff, cs[..k]) {
      SurvivorsOutlive(removes, cutoff, cs[..k], c);
    }
  }

  /** What stays in the list bears other names than what expired. */
  lemma SurvivorsRemain(removes: Removal, cutoff: nat, cs: seq<Candidate>)
    requires NamesApart(cs)
    ensures Names(Survivors(removes, cutoff, cs)) !! ExpiredNames(removes, cutoff, cs)
  {
    forall c, x | c in Survivors(removes, cutoff, cs) && x in cs && !Outlives(removes, cutoff, x) ensures c.name != x.name {
      SurvivorsMember(removes, cutoff, cs, c);
      SurvivorsOutlive(removes, cutoff, cs, c);
      var i :| 0 <= i < |cs| && cs[i] == c;
      var j :| 0 <= j < |cs| && cs[j] == x;
    }
  }

  /** A pass takes away as many names as its report says. */
  lemma RemovedCount(removes: Removal, cutoff: nat, cs: seq<Candidate>)
    requires NamesApart(cs)
    ensures |Removed(removes, cutoff, cs)| == ReportOf(removes, cutoff, cs).removed
  {
    ExpiredCount(removes, cutoff, cs);
    SurvivorsApart(removes, cutoff, cs);
    SurvivorsRemain(removes, cutoff, cs);
    var kept := Survivors(removes, cutoff, cs);
    var surplus := kept[..Excess(kept)];
    ExpelledApart(removes, surplus);
    NameCount(Expelled(removes, surplus));
    forall c | c in Expelled(removes, surplus) ensures c.name in Names(kept) {
      ExpelledMember(removes, surplus, c);
    }
    assert ExpiredNames(removes, cutoff, cs) !! Names(Expelled(removes, surplus));
  }

  predicate NamesLog(entries: seq<Entry>, name: Name) {
    exists e :: e in entries && e.name == name && LogDateOf(e).Some?
  }

  lemma {:induction false} DropIgnores(gone: set<Name>, name: Name, entries: seq<Entry>)
    requires forall e :: e in entries ==> e.name != name
    ensures Drop(gone - {name}, entries) == Drop(gone, entries)
  {
    if entries != [] {
      var k := |entries| - 1;
      assert entries[k] in entries;
      DropIgnores(gone, name, entries[..k]);
    }
  }

  predicate AllLogs(entries: seq<Entry>, gone: set<Name>) {
    forall name :: name in gone ==> NamesLog(entries, name)
  }

  lemma LogsBefore(gone: set<Name>, init: seq<Entry>, last: Entry)
    requires DistinctNames(init + [last]) && AllLogs(init + [last], gone)
    ensures AllLogs(init, gone - {last.name})
    ensures last.name in gone ==> LogDateOf(last).Some?
    ensures forall e :: e in init ==> e.name != last.name
  {
    var entries := init + [last];
    assert entries[|init|] == last;
    forall e | e in init ensures e.name != last.name {
      var i :| 0 <= i < |init| && init[i] == e;
      assert entries[i] == e;
    }
    forall name | name in gone ensures name == last.name || NamesLog(init, name) {
      assert NamesLog(entries, name);
      var e :| e in entries && e.name == name && LogDateOf(e).Some?;
      assert e == last || e in init;
    }
    if last.name in gone {
      assert NamesLog(entries, last.name);
    }
  }

  lemma DropLast(gone: set<Name>, init: seq<Entry>, last: Entry)
    ensures Drop(gone, init + [last]) == Drop(gone, init) + (if last.name in gone then [] else [last])
  {
    assert (init + [last])[..|init|] == init;
  }

  lemma CountLast(entries: seq<Entry>, last: Entry)
    ensures |FilterMap(LogDateOf, entries + [last])|
            == |FilterMap(LogDateOf, entries)| + if LogDateOf(last).Some? then 1 else 0
  {
    assert (entries + [last])[..|entries|] == entries;
  }

  /** Taking away some logs by name leaves the others. */
  lemma {:induction false} LogsLeft(gone: set<Name>, entries: seq<Entry>)
    requires DistinctNames(entries) && AllLogs(entries, gone)
    ensures |FilterMap(LogDateOf, Drop(gone, entries))| == |FilterMap(LogDateOf, entries)| - |gone|
  {
    if entries == [] {
      assert forall name :: !NamesLog(entries, name);
      assert gone == {};
    } else {
      var k := |entries| - 1;
      var init, last := entries[..k], entries[k];
      assert entries == init + [last];
      LogsBefore(gone, init, last);
      LogsLeft(gone - {last.name}, init);
      DropIgnores(gone, last.name, init);
      DropLast(gone, init, last);
      CountLast(init, last);
      CountLast(Drop(gone, init), last);
      assert Drop(gone, init) + [] == Drop(gone, init);
      assert |gone - {last.name}| == |gone| - if last.name in gone then 1 else 0;
    }
  }

  /** Of the logs examined, those not reported as removed are still there. */
  lemma LogsAfter(removes: Removal, now: nat, entries: seq<Entry>)
    requires DistinctNames(entries)
    ensures |FilterMap(LogDateOf, Purged(removes, now, entries))|
            == |FilterMap(LogDateOf, entries)| - ReportOf(removes, Cutoff(now), Sorted(entries)).removed
  {
    var cs := Sorted(entries);
    var gone := Removed(removes, Cutoff(now), cs);
    SortedNamesApart(entries);
    RemovedCount(removes, Cutoff(now), cs);
    forall name | name in gone ensures NamesLog(entries, name) {
      RemovedAreCandidates(removes, Cutoff(now), cs, name);
      var c :| c in cs && c.name == name;
      SortedMembers(entries, c);
      var e :| e in entries && CandidateOf(e) == Some(c);
      CandidateKeepsName(e);
      CandidateIsLog(e);
    }
    assert AllLogs(entries, gone);
    LogsLeft(gone, entries);
  }

  /** The report counts every log once. Of the files in the directory it reports every log that is
      no longer there as removed. The logs that are left are as many as it reports as retained, and
      its figures add up, exactly when no surplus file resisted deletion: such a file is reported
      neither as removed nor as retained. */
  lemma ReportAddsUp(removes: Removal, now: nat, entries: seq<Entry>)
    ensures var sorted := Sorted(entries);
            var report := ReportOf(removes, Cutoff(now), sorted);
            var left := |FilterMap(LogDateOf, Purged(removes, now, entries))|;
            && report.examined == |FilterMap(LogDateOf, entries)|
            && report.retained <= MAX_RETAINED_LOG_FILES
            && report.removed + report.retained <= report.examined
            && (report.examined == report.removed + report.retained
                <==> AllGone(removes, Survivors(removes, Cutoff(now), sorted)))
            && (DistinctNames(entries) ==>
                  && left == report.examined - report.removed
                  && (left == report.retained <==> AllGone(removes, Survivors(removes, Cutoff(now), sorted))))
  {
    SortedCountsLogs(entries);
    ReportSums(removes, Cutoff(now), Sorted(entries), ReportOf(removes, Cutoff(now), Sorted(entries)));
    if DistinctNames(entries) {
      LogsAfter(removes, now, entries);
    }
  }
}
