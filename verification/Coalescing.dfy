/** The fate of one diagnostic row: when coalescing changes it, told from the recordings. */
module Coalescing {
  import opened Options
  import opened Text
  import opened DiagnosticStore

  // ---------------------------------------------------------------------------
  // Occurrences of the repeat separator.

  predicate Occurs<T(==)>(s: seq<T>, pattern: seq<T>, k: nat) {
    k + |pattern| <= |s| && s[k..k + |pattern|] == pattern
  }

  lemma {:induction false} LastBefore(s: string, pattern: string, limit: nat, k: nat)
    requires limit <= |s| && k < limit && Occurs(s, pattern, k)
    ensures k <= LastOccurrenceBefore(s, pattern, limit) < |s|
    decreases limit
  {
    if k < limit - 1 && !Occurs(s, pattern, limit - 1) {
      LastBefore(s, pattern, limit - 1, k);
    }
  }

  lemma LastIs(s: string, pattern: string, k: nat)
    requires pattern != [] && Occurs(s, pattern, k)
    ensures k <= LastOccurrence(s, pattern) < |s|
  {
    LastBefore(s, pattern, |s|, k);
  }

  /** A blank that never returns inside, and no dot. */
  predicate Separator(sep: string) {
    sep != [] && sep[0] == ' ' && forall i :: 1 <= i < |sep| ==> sep[i] != ' ' && sep[i] != '.'
  }

  lemma RepeatSeparates()
    ensures Separator(REPEAT)
  {
  }

  lemma NotInside(d: string, sep: string, e: string, n: nat, k: nat)
    requires sep != [] && Without(d, sep) && n <= |d| && n <= |e| && e[..n] == d[..n] && Occurs(e, sep, k)
    ensures k + |sep| > n
  {
    if k + |sep| <= n {
      assert e[k..k + |sep|] == e[..n][k..k + |sep|] == d[..n][k..k + |sep|] == d[k..k + |sep|];
      LastIs(d, sep, k);
    }
  }

  // ---------------------------------------------------------------------------
  // What repeated coalescing can make of the details.

  /** Details that fit keep standing in front, with a blank or a dot behind them. */
  predicate GrownShort(d: string, e: string) {
    d <= e && |e| > |d| && (e[|d|] == ' ' || e[|d|] == '.')
  }

  /** Details that do not fit are cut, with dots up to the limit and three beyond. */
  predicate GrownLong(d: string, e: string, limit: nat) {
    var p := Prefix(d, limit);
    p <= e && |e| >= |p| + 3 && Utf8Len(p) + (|e| - |p| - 3) <= limit
    && forall i :: |p| <= i < |e| ==> e[i] == '.'
  }

  predicate Grown(d: string, e: string, limit: nat) {
    if Utf8Len(d) <= limit then GrownShort(d, e) else GrownLong(d, e, limit)
  }

  lemma CutIsLong(d: string, limit: nat)
    requires CutAt(d, limit)
    ensures Utf8Len(d) == limit + 3 && Prefix(d, limit) == d[..|d| - 3]
  {
    var p := d[..|d| - 3];
    assert d == p + "...";
    Utf8LenAppend(p, "...");
    AsciiLen("...");
    PrefixIs(p, "...", limit);
  }

  lemma SameEnds<T>(a: seq<T>, b: seq<T>, n: nat, c: T)
    requires n <= |a| == |b| && a[..n] == b[..n] && forall i :: n <= i < |a| ==> a[i] == c && b[i] == c
    ensures a == b
  {
    assert forall i :: 0 <= i < n ==> a[i] == a[..n][i] && b[i] == b[..n][i];
  }

  lemma CutEnds(d: string, limit: nat)
    requires CutAt(d, limit)
    ensures forall i :: |d| - 3 <= i < |d| ==> d[i] == '.'
  {
    assert forall i :: |d| - 3 <= i < |d| ==> d[i] == d[|d| - 3..][i - (|d| - 3)];
  }

  lemma CutStays(d: string, e: string, limit: nat)
    requires CutAt(d, limit) && GrownLong(d, e, limit)
    ensures e == d
  {
    CutIsLong(d, limit);
    CutEnds(d, limit);
    SameEnds(e, d, |d| - 3, '.');
  }

  lemma SameIsCut(d: string, limit: nat)
    requires Utf8Len(d) > limit && GrownLong(d, d, limit)
    ensures CutAt(d, limit)
  {
    var p := Prefix(d, limit);
    PrefixIsMaximal(d, limit);
    assert d[|p|] == '.' && Utf8Width('.') == 1;
    assert |d| == |p| + 3 && d[..|d| - 3] == p;
    assert d[|d| - 3..] == "...";
  }

  lemma LongDiffers(d: string, e: string, limit: nat)
    requires Utf8Len(d) > limit && GrownLong(d, e, limit)
    ensures e == d <==> CutAt(d, limit)
  {
    if CutAt(d, limit) {
      CutStays(d, e, limit);
    }
    if e == d {
      SameIsCut(d, limit);
    }
  }

  /** Grown details equal the original ones in one case only. */
  lemma GrownDiffers(d: string, e: string, limit: nat)
    requires Grown(d, e, limit)
    ensures e == d <==> CutAt(d, limit)
  {
    if Utf8Len(d) > limit {
      LongDiffers(d, e, limit);
    } else if CutAt(d, limit) {
      CutIsLong(d, limit);
    }
  }

  lemma {:induction false} PrefixKeeps(d: string, s: string, limit: nat)
    requires d <= s && Utf8Len(d) <= limit
    ensures d <= Prefix(s, limit)
  {
    if d != [] {
      assert s[0] == d[0];
      PrefixKeeps(d[1..], s[1..], limit - Utf8Width(d[0]));
      assert d == [d[0]] + d[1..];
    }
  }

  lemma {:induction false} PrefixOfLonger(d: string, tail: string, limit: nat)
    requires Utf8Len(d) > limit
    ensures Prefix(d + tail, limit) == Prefix(d, limit)
  {
    if Utf8Width(d[0]) <= limit {
      assert (d + tail)[1..] == d[1..] + tail;
      PrefixOfLonger(d[1..], tail, limit - Utf8Width(d[0]));
    }
  }

  /** One more repeat count behind a base that starts with the details. */
  lemma ShortGrows(d: string, base: string, tail: string, limit: nat)
    requires Utf8Len(d) <= limit && d <= base && tail != [] && tail[0] == ' '
    requires |base| > |d| ==> base[|d|] == ' ' || base[|d|] == '.'
    ensures GrownShort(d, TruncateUtf8(base + tail, limit))
  {
    var full := base + tail;
    assert d <= full && (full[|d|] == ' ' || full[|d|] == '.');
    PrefixKeeps(d, full, limit);
    PrefixIsMaximal(full, limit);
  }

  lemma LongStarts(d: string, tail: string, limit: nat)
    requires Utf8Len(d) > limit
    ensures GrownLong(d, TruncateUtf8(d + tail, limit), limit)
  {
    var p := Prefix(d, limit);
    Utf8LenAppend(d, tail);
    PrefixOfLonger(d, tail, limit);
    PrefixIsMaximal(d, limit);
    assert TruncateUtf8(d + tail, limit) == p + "...";
  }

  function Dots(n: nat): (r: string)
    ensures |r| == n && forall i :: 0 <= i < n ==> r[i] == '.'
  {
    seq(n, i => '.')
  }

  lemma DotsLen(n: nat)
    ensures Utf8Len(Dots(n)) == n
  {
    AsciiLen(Dots(n));
  }

  lemma CutBetween(q: string, rest: string, limit: nat)
    requires Utf8Len(q) == limit && rest != []
    ensures TruncateUtf8(q + rest, limit) == q + "..."
  {
    Utf8LenAppend(q, rest);
    PrefixIs(q, rest, limit);
  }

  lemma Resplit<T>(e: seq<T>, tail: seq<T>, q: seq<T>, n: nat)
    requires n <= |e| && q == e[..n]
    ensures e + tail == q + (e[n..] + tail)
  {
  }

  lemma DottedFront(p: string, e: string, j: nat)
    requires p <= e && |e| >= |p| + j && forall i :: |p| <= i < |p| + j ==> e[i] == '.'
    ensures e[..|p| + j] == p + Dots(j) && Utf8Len(p + Dots(j)) == Utf8Len(p) + j
  {
    Utf8LenAppend(p, Dots(j));
    DotsLen(j);
  }

  /** Cutting a dotted text again: dots up to the limit, and three more. */
  lemma DotsAreCut(p: string, e: string, j: nat, tail: string, limit: nat)
    requires p <= e && |e| >= |p| + j && Utf8Len(p) + j == limit && tail != []
    requires forall i :: |p| <= i < |p| + j ==> e[i] == '.'
    ensures TruncateUtf8(e + tail, limit) == p + Dots(j) + "..."
  {
    var q, n := p + Dots(j), |p| + j;
    DottedFront(p, e, j);
    var rest := e[n..] + tail;
    assert rest != [];
    Resplit(e, tail, q, n);
    CutBetween(q, rest, limit);
  }

  lemma LongGrows(d: string, e: string, tail: string, limit: nat)
    requires Utf8Len(d) > limit && GrownLong(d, e, limit) && tail != []
    ensures GrownLong(d, TruncateUtf8(e + tail, limit), limit)
  {
    var p := Prefix(d, limit);
    PrefixIsMaximal(d, limit);
    LongerThan(d, p);
    var j: nat := limit - Utf8Len(p);
    DotsAreCut(p, e, j, tail, limit);
    DottedIsLong(d, p + Dots(j) + "...", j, limit);
  }

  lemma DottedIsLong(d: string, e: string, j: nat, limit: nat)
    requires e == Prefix(d, limit) + Dots(j) + "..." && Utf8Len(Prefix(d, limit)) + j == limit
    ensures GrownLong(d, e, limit)
  {
    var p := Prefix(d, limit);
    assert e == p + (Dots(j) + "...");
  }

  lemma LongerThan(d: string, p: string)
    requires p <= d && Utf8Len(p) < Utf8Len(d)
    ensures |p| < |d|
  {
  }

  // ---------------------------------------------------------------------------
  // Coalescing grown details.

  lemma SeparatorAt(e: string, sep: string, k: nat, i: nat)
    requires Occurs(e, sep, k) && i < |sep|
    ensures k + i < |e| && e[k + i] == sep[i]
  {
    assert e[k..k + |sep|][i] == e[k + i];
  }

  lemma ShortBase(d: string, e: string, sep: string)
    requires Separator(sep) && Without(d, sep) && GrownShort(d, e)
    ensures LastOccurrence(e, sep) >= |d|
  {
    var k := LastOccurrence(e, sep);
    if k < |d| {
      assert Occurs(e, sep, k);
      NotInside(d, sep, e, |d|, k);
      SeparatorAt(e, sep, k, |d| - k);
    }
  }

  lemma LongBase(d: string, e: string, sep: string, limit: nat)
    requires Separator(sep) && Without(d, sep) && GrownLong(d, e, limit)
    ensures LastOccurrence(e, sep) == |e|
  {
    var k := LastOccurrence(e, sep);
    var p := Prefix(d, limit);
    PrefixIsMaximal(d, limit);
    if k < |e| {
      assert Occurs(e, sep, k);
      NotInside(d, sep, e, |p|, k);
      var i := if k >= |p| then 0 else |p| - k;
      SeparatorAt(e, sep, k, i);
    }
  }

  /** Whatever a grown row is coalesced with, it stays grown. */
  lemma GrownGrows(d: string, e: string, sep: string, tail: string, limit: nat)
    requires Separator(sep) && Without(d, sep) && Grown(d, e, limit) && tail != [] && tail[0] == ' '
    ensures Grown(d, TruncateUtf8(e[..LastOccurrence(e, sep)] + tail, limit), limit)
  {
    var base := e[..LastOccurrence(e, sep)];
    if Utf8Len(d) <= limit {
      ShortBase(d, e, sep);
      ShortGrows(d, base, tail, limit);
    } else {
      LongBase(d, e, sep, limit);
      assert base == e;
      LongGrows(d, e, tail, limit);
    }
  }

  lemma GrowthStarts(d: string, tail: string, limit: nat)
    requires tail != [] && tail[0] == ' '
    ensures Grown(d, TruncateUtf8(d + tail, limit), limit)
  {
    if Utf8Len(d) <= limit {
      ShortGrows(d, d, tail, limit);
    } else {
      LongStarts(d, tail, limit);
    }
  }

  lemma TailOf(n: nat)
    ensures REPEAT + Decimal(n) != [] && (REPEAT + Decimal(n))[0] == ' '
  {
    RepeatSeparates();
  }

  /** What coalescing writes: the part before the last repeat count, and a new count. */
  lemma CoalescedIs(marker: Option<string>, e: string, x: string) returns (n: nat)
    requires Coalesced(marker, e, x).Some?
    ensures Coalesced(marker, e, x).value
            == TruncateUtf8(e[..LastOccurrence(e, REPEAT)] + (REPEAT + Decimal(n)), MAX_FIELD_LENGTH)
  {
    var k := LastOccurrence(e, REPEAT);
    var parsed := if k < |e| then ParseUnsigned(e[k + |REPEAT|..], U32_MAX) else None;
    var count := if parsed.Some? then parsed.value else 1;
    n := if count < 999_999 then count + 1 else 999_999;
    Associate(e[..k], REPEAT, Decimal(n));
  }

  lemma CoalescedGrows(marker: Option<string>, d: string, e: string, x: string)
    requires Without(d, REPEAT) && Grown(d, e, MAX_FIELD_LENGTH) && Coalesced(marker, e, x).Some?
    ensures Grown(d, Coalesced(marker, e, x).value, MAX_FIELD_LENGTH)
  {
    RepeatSeparates();
    var n := CoalescedIs(marker, e, x);
    TailOf(n);
    GrownGrows(d, e, REPEAT, REPEAT + Decimal(n), MAX_FIELD_LENGTH);
  }

  /** A fresh row is coalesced with plain details equal to its own, and with nothing else. */
  lemma FreshCoalesces(d: string, x: string)
    ensures Coalesced(None, d, x).Some? <==> Without(d, REPEAT) && x == d
    ensures Without(d, REPEAT) ==> Grown(d, Coalesced(None, d, d).value, MAX_FIELD_LENGTH)
  {
    assert d[..|d|] == d;
    if Without(d, REPEAT) {
      TailOf(2);
      assert d + REPEAT + Decimal(2) == d + (REPEAT + Decimal(2));
      GrowthStarts(d, REPEAT + Decimal(2), MAX_FIELD_LENGTH);
    }
  }

  // ---------------------------------------------------------------------------
  // Runs.

  /** The second recording is coalesced into the first one's new row. */
  predicate Repeats(r: Record, r': Record) {
    r.name == LAYOUT_ERROR && r'.name == LAYOUT_ERROR && r'.details == r.details && Without(r.details, REPEAT)
  }

  /** What becomes of row `k`, which recording `r` made: `repeated` says whether the next recording
      repeated it. */
  ghost predicate Row(t: Traced, k: nat, r: Record, repeated: bool) {
    && k < |t.history.chain| == |t.history.hashed|
    && t.history.hashed[k] == r.details && t.history.chain[k].name == r.name
    && (repeated ==> r.name == LAYOUT_ERROR && Without(r.details, REPEAT)
                     && Grown(r.details, t.history.chain[k].details, MAX_FIELD_LENGTH))
    && (!repeated ==> t.history.chain[k].details == r.details)
  }

  ghost predicate IsLast(t: Traced, k: nat) {
    k == |t.history.chain| - 1
  }

  lemma LastRow(hash: HashFunction, genesis: Digest, t: Traced)
    requires Represents(hash, genesis, t.store, t.history) && t.history.chain != []
    ensures t.store.events != []
            && t.store.events[|t.store.events| - 1] == t.history.chain[|t.history.chain| - 1]
  {
    RetainedLast(t.history.chain, t.store.maximum);
  }

  lemma Pushed(hash: HashFunction, genesis: Digest, t: Traced, r: Record)
    requires Represents(hash, genesis, t.store, t.history) && Coalesce(t.store, r).None?
    ensures var t' := TracedRecord(hash, t, r);
            var k := |t'.history.chain| - 1;
            k >= 0 && Row(t', k, r, false) && t'.store.coalesced == None
    ensures var t' := TracedRecord(hash, t, r);
            && |t.history.chain| < |t'.history.chain|
            && forall i :: 0 <= i < |t.history.chain| ==>
                 t'.history.chain[i] == t.history.chain[i] && t'.history.hashed[i] == t.history.hashed[i]
  {
    var marker, event := PushHistory(hash, t.store, t.history, r);
  }

  /** A row that is no longer the last never changes again, and neither does one that is pushed down. */
  lemma RowStays(hash: HashFunction, genesis: Digest, t: Traced, k: nat, r: Record, repeated: bool, r': Record)
    requires Represents(hash, genesis, t.store, t.history) && Row(t, k, r, repeated)
    requires Coalesce(t.store, r').None? || !IsLast(t, k)
    ensures var t' := TracedRecord(hash, t, r'); Row(t', k, r, repeated) && !IsLast(t', k)
  {
    if Coalesce(t.store, r').None? {
      Pushed(hash, genesis, t, r');
    }
  }

  /** The recording right after the one that made the row. */
  lemma RowNext(hash: HashFunction, genesis: Digest, t: Traced, k: nat, r: Record, r': Record)
    requires Represents(hash, genesis, t.store, t.history) && Row(t, k, r, false) && IsLast(t, k)
    requires t.store.coalesced == None
    ensures var t' := TracedRecord(hash, t, r');
            Row(t', k, r, Repeats(r, r')) && (IsLast(t', k) ==> Repeats(r, r'))
  {
    LastRow(hash, genesis, t);
    FreshCoalesces(r.details, r'.details);
    NextCoalesces(t, k, r, r');
    if Coalesce(t.store, r').None? {
      RowStays(hash, genesis, t, k, r, false, r');
    } else {
      RowStarts(t, k, r, Coalesce(t.store, r').value, TracedRecord(hash, t, r'));
    }
  }

  lemma NextCoalesces(t: Traced, k: nat, r: Record, r': Record)
    requires Row(t, k, r, false) && IsLast(t, k) && t.store.coalesced == None && t.store.events != []
    requires t.store.events[|t.store.events| - 1] == t.history.chain[k]
    ensures Coalesce(t.store, r').Some? <==> Repeats(r, r')
    ensures Coalesce(t.store, r').Some? ==> Coalesce(t.store, r') == Coalesced(None, r.details, r.details)
  {
    FreshCoalesces(r.details, r'.details);
  }

  lemma RowStarts(t: Traced, k: nat, r: Record, details: string, t': Traced)
    requires Row(t, k, r, false) && IsLast(t, k) && r.name == LAYOUT_ERROR && Without(r.details, REPEAT)
    requires Grown(r.details, details, MAX_FIELD_LENGTH) && t'.history == RewriteLast(t.history, details)
    ensures Row(t', k, r, true)
  {
  }

  lemma RowCoalesced(t: Traced, k: nat, r: Record, details: string, t': Traced)
    requires Row(t, k, r, true) && IsLast(t, k) && Grown(r.details, details, MAX_FIELD_LENGTH)
    requires t'.history == RewriteLast(t.history, details)
    ensures Row(t', k, r, true)
  {
  }

  lemma LastCoalesces(t: Traced, k: nat, r': Record)
    requires IsLast(t, k) && k < |t.history.chain| && t.store.events != [] && Coalesce(t.store, r').Some?
    requires t.store.events[|t.store.events| - 1] == t.history.chain[k]
    ensures Coalesce(t.store, r') == Coalesced(t.store.coalesced, t.history.chain[k].details, r'.details)
  {
  }

  lemma RowAgainCoalesced(hash: HashFunction, genesis: Digest, t: Traced, k: nat, r: Record, r': Record)
    requires Represents(hash, genesis, t.store, t.history) && Row(t, k, r, true)
    requires IsLast(t, k) && Coalesce(t.store, r').Some?
    ensures Row(TracedRecord(hash, t, r'), k, r, true)
  {
    var e := t.history.chain[k].details;
    LastRow(hash, genesis, t);
    LastCoalesces(t, k, r');
    CoalescedGrows(t.store.coalesced, r.details, e, r'.details);
    RowCoalesced(t, k, r, Coalesce(t.store, r').value, TracedRecord(hash, t, r'));
  }

  /** Any later recording, while a repeated row is still the last. */
  lemma RowAgain(hash: HashFunction, genesis: Digest, t: Traced, k: nat, r: Record, r': Record)
    requires Represents(hash, genesis, t.store, t.history) && Row(t, k, r, true)
    ensures Row(TracedRecord(hash, t, r'), k, r, true)
  {
    if Coalesce(t.store, r').None? || !IsLast(t, k) {
      RowStays(hash, genesis, t, k, r, true, r');
    } else {
      RowAgainCoalesced(hash, genesis, t, k, r, r');
    }
  }

  /** The row of recording `r` while `isNew`, that is up to the next recording, and from then on. */
  ghost predicate Fate(t: Traced, k: nat, r: Record, isNew: bool, repeated: bool) {
    && Row(t, k, r, repeated)
    && (isNew ==> IsLast(t, k) && t.store.coalesced == None && !repeated)
    && (!isNew && IsLast(t, k) ==> repeated)
  }

  lemma FateStep(hash: HashFunction, genesis: Digest, t: Traced, k: nat, r: Record, isNew: bool, repeated: bool, r': Record)
    requires Represents(hash, genesis, t.store, t.history) && Fate(t, k, r, isNew, repeated)
    ensures Fate(TracedRecord(hash, t, r'), k, r, false, if isNew then Repeats(r, r') else repeated)
  {
    if isNew {
      RowNext(hash, genesis, t, k, r, r');
    } else if repeated {
      RowAgain(hash, genesis, t, k, r, r');
    } else {
      RowStays(hash, genesis, t, k, r, false, r');
    }
  }

  lemma {:induction false} SequencesOfPrefix(hash: HashFunction, genesis: Digest, maximum: nat, rs: seq<Record>, n: nat)
    requires n <= |rs| && Run(hash, genesis, maximum, rs).store.nextSequence < U64_MAX
    ensures Run(hash, genesis, maximum, rs[..n]).store.nextSequence < U64_MAX
  {
    if n < |rs| {
      var before := rs[..|rs| - 1];
      SequenceGrows(hash, Run(hash, genesis, maximum, before), rs[|rs| - 1]);
      SequencesOfPrefix(hash, genesis, maximum, before, n);
      assert before[..n] == rs[..n];
    } else {
      assert rs[..n] == rs;
    }
  }

  /** The state after the first `n` recordings. */
  function At(hash: HashFunction, genesis: Digest, maximum: nat, rs: seq<Record>, n: nat): Traced
    requires n <= |rs|
  {
    Run(hash, genesis, maximum, rs[..n])
  }

  lemma AtNext(hash: HashFunction, genesis: Digest, maximum: nat, rs: seq<Record>, n: nat)
    requires n < |rs| && Run(hash, genesis, maximum, rs).store.nextSequence < U64_MAX
    ensures At(hash, genesis, maximum, rs, n + 1) == TracedRecord(hash, At(hash, genesis, maximum, rs, n), rs[n])
    ensures var t := At(hash, genesis, maximum, rs, n); Represents(hash, genesis, t.store, t.history)
  {
    assert rs[..n + 1][..n] == rs[..n];
    SequencesOfPrefix(hash, genesis, maximum, rs, n);
    RunRepresents(hash, genesis, maximum, rs[..n]);
  }

  predicate RepeatedNext(rs: seq<Record>, j: nat, n: nat)
    requires j < n <= |rs|
  {
    n > j + 1 && Repeats(rs[j], rs[j + 1])
  }

  /** One recording further along the run. */
  lemma FateNext(hash: HashFunction, genesis: Digest, t: Traced, t': Traced, k: nat, rs: seq<Record>, j: nat, n: nat)
    requires j < n < |rs| && Fate(t, k, rs[j], n == j + 1, RepeatedNext(rs, j, n))
    requires t' == TracedRecord(hash, t, rs[n]) && Represents(hash, genesis, t.store, t.history)
    ensures Fate(t', k, rs[j], false, RepeatedNext(rs, j, n + 1))
  {
    FateStep(hash, genesis, t, k, rs[j], n == j + 1, RepeatedNext(rs, j, n), rs[n]);
  }

  /** The states of a run, one more than it has recordings. */
  ghost predicate Linked(hash: HashFunction, genesis: Digest, ts: seq<Traced>, rs: seq<Record>, i: nat)
    requires |ts| == |rs| + 1 && i < |rs|
  {
    ts[i + 1] == TracedRecord(hash, ts[i], rs[i]) && Represents(hash, genesis, ts[i].store, ts[i].history)
  }

  lemma {:induction false} Forward(holds: nat -> bool, low: nat, n: nat)
    requires low <= n && holds(low) && forall m :: low <= m < n && holds(m) ==> holds(m + 1)
    ensures holds(n)
  {
    if low < n {
      Forward(holds, low, n - 1);
    }
  }

  lemma RowLater(hash: HashFunction, genesis: Digest, ts: seq<Traced>, rs: seq<Record>, j: nat, k: nat)
    requires |ts| == |rs| + 1 && j < |rs| && forall i :: 0 <= i < |rs| ==> Linked(hash, genesis, ts, rs, i)
    requires Fate(ts[j + 1], k, rs[j], true, false)
    ensures Fate(ts[|rs|], k, rs[j], |rs| == j + 1, RepeatedNext(rs, j, |rs|))
  {
    ghost var holds := (m: nat) => j < m <= |rs| && Fate(ts[m], k, rs[j], m == j + 1, RepeatedNext(rs, j, m));
    forall m | j + 1 <= m < |rs| && holds(m) ensures holds(m + 1) {
      assert Linked(hash, genesis, ts, rs, m);
      FateNext(hash, genesis, ts[m], ts[m + 1], k, rs, j, m);
    }
    Forward(holds, j + 1, |rs|);
  }

  lemma StatesOf(hash: HashFunction, genesis: Digest, maximum: nat, rs: seq<Record>) returns (ts: seq<Traced>)
    requires Run(hash, genesis, maximum, rs).store.nextSequence < U64_MAX
    ensures |ts| == |rs| + 1 && forall n :: 0 <= n <= |rs| ==> ts[n] == At(hash, genesis, maximum, rs, n)
    ensures forall i :: 0 <= i < |rs| ==> Linked(hash, genesis, ts, rs, i)
  {
    ts := seq(|rs| + 1, n requires 0 <= n <= |rs| => At(hash, genesis, maximum, rs, n));
    forall i | 0 <= i < |rs| ensures Linked(hash, genesis, ts, rs, i) {
      AtNext(hash, genesis, maximum, rs, i);
    }
  }

  lemma RowFirst(hash: HashFunction, genesis: Digest, maximum: nat, rs: seq<Record>, j: nat, k: nat)
    requires j < |rs| && Run(hash, genesis, maximum, rs).store.nextSequence < U64_MAX
    requires Coalesce(At(hash, genesis, maximum, rs, j).store, rs[j]).None?
    requires k == |At(hash, genesis, maximum, rs, j + 1).history.chain| - 1
    ensures Fate(At(hash, genesis, maximum, rs, j + 1), k, rs[j], true, false)
  {
    AtNext(hash, genesis, maximum, rs, j);
    Pushed(hash, genesis, At(hash, genesis, maximum, rs, j), rs[j]);
  }

  /** A row differs from what was hashed if and only if the very next recording repeated the one that
      made it, its details carrying no repeat count and not cut after exactly 160 bytes. */
  lemma RowChangesExactly(hash: HashFunction, genesis: Digest, maximum: nat, rs: seq<Record>, j: nat, k: nat)
    requires j < |rs| && Run(hash, genesis, maximum, rs).store.nextSequence < U64_MAX
    requires Coalesce(At(hash, genesis, maximum, rs, j).store, rs[j]).None?
    requires k == |At(hash, genesis, maximum, rs, j + 1).history.chain| - 1
    ensures var h := Run(hash, genesis, maximum, rs).history;
            k < |h.chain| == |h.hashed|
            && (h.chain[k].details != h.hashed[k]
                <==> j + 1 < |rs| && Repeats(rs[j], rs[j + 1]) && !CutAt(rs[j].details, MAX_FIELD_LENGTH))
  {
    var t := Run(hash, genesis, maximum, rs);
    assert rs[..|rs|] == rs;
    RowFirst(hash, genesis, maximum, rs, j, k);
    var ts := StatesOf(hash, genesis, maximum, rs);
    RowLater(hash, genesis, ts, rs, j, k);
    RowIs(t, k, rs[j], RepeatedNext(rs, j, |rs|));
  }

  lemma RowIs(t: Traced, k: nat, r: Record, repeated: bool)
    requires Row(t, k, r, repeated)
    ensures t.history.chain[k].details != t.history.hashed[k] <==> repeated && !CutAt(r.details, MAX_FIELD_LENGTH)
  {
    if repeated {
      GrownDiffers(r.details, t.history.chain[k].details, MAX_FIELD_LENGTH);
    }
  }
}
