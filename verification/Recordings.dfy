/** The stored rows, told from the recordings alone: which recording made which row, and what the row
    carries of it. */
module Recordings {
  import opened Options
  import opened Text
  import opened Sequences
  import opened DiagnosticStore
  import opened Coalescing

  /** Recording `j` appends a row; otherwise it is coalesced into the last one. */
  predicate Appends(hash: HashFunction, genesis: Digest, maximum: nat, rs: seq<Record>, j: nat)
    requires j < |rs|
  {
    Coalesce(At(hash, genesis, maximum, rs, j).store, rs[j]).None?
  }

  /** The recordings that append a row, in order. */
  function Appending(hash: HashFunction, genesis: Digest, maximum: nat, rs: seq<Record>): (js: seq<nat>)
    ensures forall i :: 0 <= i < |js| ==> js[i] < |rs|
    ensures forall i, k :: 0 <= i < k < |js| ==> js[i] < js[k]
  {
    if rs == [] then []
    else
      var before, j := Appending(hash, genesis, maximum, rs[..|rs| - 1]), |rs| - 1;
      if Coalesce(Run(hash, genesis, maximum, rs[..j]).store, rs[j]).None? then before + [j] else before
  }

  /** The event is the row of recording `j`: it has its time, name and context, and its details too
      unless the next recording repeated it. */
  ghost predicate Made(e: Event, rs: seq<Record>, j: nat)
    requires j < |rs|
  {
    Carries(e, rs[j]) && (e.details == rs[j].details || (j + 1 < |rs| && Repeats(rs[j], rs[j + 1])))
  }

  /** The events without the marker. */
  function Unmarked(chain: seq<Event>, maximum: nat): seq<Event> {
    if |chain| <= maximum then chain else Recorded(chain, maximum)
  }

  /** One event for each of the recordings `js`, in order, and the marker of the one that overflowed. */
  ghost predicate RowsCarry(chain: seq<Event>, maximum: nat, js: seq<nat>, rs: seq<Record>) {
    var events := Unmarked(chain, maximum);
    && |events| == |js| && |chain| != maximum + 1
    && (forall i :: 0 <= i < |js| ==> js[i] < |rs| && Made(events[i], rs, js[i]))
    && (|chain| > maximum ==> maximum < |js| && IsMarker(chain[maximum], rs[js[maximum]], maximum))
  }

  /** The last row is as its recording made it, or that one has been repeated. */
  ghost predicate LastIsFresh(chain: seq<Event>, coalesced: Option<string>, js: seq<nat>, rs: seq<Record>) {
    js != [] ==>
      var j := js[|js| - 1];
      && chain != [] && j < |rs|
      && (if j == |rs| - 1 then
            coalesced == None && Carries(chain[|chain| - 1], rs[j]) && chain[|chain| - 1].details == rs[j].details
          else Repeats(rs[j], rs[j + 1]))
  }

  lemma RowsLater(chain: seq<Event>, maximum: nat, js: seq<nat>, rs: seq<Record>, r: Record)
    requires RowsCarry(chain, maximum, js, rs)
    ensures RowsCarry(chain, maximum, js, rs + [r])
  {
    var all, events := rs + [r], Unmarked(chain, maximum);
    forall i | 0 <= i < |js| ensures Made(events[i], all, js[i]) {
      assert Made(events[i], rs, js[i]) && all[js[i]] == rs[js[i]];
    }
  }

  lemma UnmarkedLast(chain: seq<Event>, maximum: nat)
    requires |chain| != maximum + 1 && chain != []
    ensures var events := Unmarked(chain, maximum);
            events != [] && events[|events| - 1] == chain[|chain| - 1]
  {
  }

  lemma RowsRewritten(chain: seq<Event>, maximum: nat, js: seq<nat>, rs: seq<Record>, details: string)
    requires RowsCarry(chain, maximum, js, rs) && chain != [] && 2 <= maximum
    requires var j := js[|js| - 1]; j + 1 < |rs| && Repeats(rs[j], rs[j + 1])
    ensures RowsCarry(chain[|chain| - 1 := chain[|chain| - 1].(details := details)], maximum, js, rs)
  {
    var last := chain[|chain| - 1].(details := details);
    UnmarkedLast(chain, maximum);
    var events := Unmarked(chain, maximum);
    UnmarkedUpdate(chain, maximum, last);
    assert Made(events[|events| - 1], rs, js[|js| - 1]);
    MadeUpdate(events, js, rs, details);
  }

  lemma UnmarkedUpdate(chain: seq<Event>, maximum: nat, e: Event)
    requires |chain| != maximum + 1 && chain != []
    ensures var events := Unmarked(chain, maximum);
            events != [] && Unmarked(chain[|chain| - 1 := e], maximum) == events[|events| - 1 := e]
  {
    if |chain| > maximum {
      RecordedUpdate(chain, maximum, e);
    }
  }

  lemma MadeUpdate(events: seq<Event>, js: seq<nat>, rs: seq<Record>, details: string)
    requires |events| == |js| > 0 && forall i :: 0 <= i < |js| ==> js[i] < |rs| && Made(events[i], rs, js[i])
    requires var j := js[|js| - 1]; j + 1 < |rs| && Repeats(rs[j], rs[j + 1])
    ensures var k := |events| - 1;
            forall i :: 0 <= i < |js| ==> Made(events[k := events[k].(details := details)][i], rs, js[i])
  {
    var k := |events| - 1;
    assert Made(events[k], rs, js[k]);
  }

  lemma RowsPushed(chain: seq<Event>, maximum: nat, js: seq<nat>, rs: seq<Record>, j: nat, event: Event)
    requires RowsCarry(chain, maximum, js, rs) && |chain| != maximum && j < |rs| && Made(event, rs, j)
    ensures RowsCarry(chain + [event], maximum, js + [j], rs)
  {
    if |chain| > maximum {
      RecordedGrows(chain, maximum, event);
    }
  }

  lemma RowsOverflow(chain: seq<Event>, maximum: nat, js: seq<nat>, rs: seq<Record>, j: nat, marker: Event, event: Event)
    requires RowsCarry(chain, maximum, js, rs) && |chain| == maximum && j < |rs|
    requires Made(event, rs, j) && IsMarker(marker, rs[j], maximum)
    ensures RowsCarry(chain + [marker] + [event], maximum, js + [j], rs)
  {
    RecordedGrows(chain + [marker], maximum, event);
    assert Recorded(chain + [marker], maximum) == chain;
  }

  lemma AppendStep(hash: HashFunction, maximum: nat, t: Traced, js: seq<nat>, rs: seq<Record>, r: Record)
    requires t.store.maximum == maximum && Coalesce(t.store, r).None?
    requires RowsCarry(t.history.chain, maximum, js, rs)
    ensures var t' := TracedRecord(hash, t, r);
            RowsCarry(t'.history.chain, maximum, js + [|rs|], rs + [r])
            && LastIsFresh(t'.history.chain, t'.store.coalesced, js + [|rs|], rs + [r])
  {
    var chain, all := t.history.chain, rs + [r];
    assert all[|rs|] == r;
    RowsLater(chain, maximum, js, rs, r);
    var marker, event := PushHistory(hash, t.store, t.history, r);
    assert Made(event, all, |rs|);
    if |chain| == maximum {
      RowsOverflow(chain, maximum, js, all, |rs|, marker, event);
    } else {
      RowsPushed(chain, maximum, js, all, |rs|, event);
    }
  }

  /** What is coalesced repeats the recording that made the last row. */
  lemma CoalescedRepeats(hash: HashFunction, genesis: Digest, t: Traced, js: seq<nat>, rs: seq<Record>, r: Record)
    requires Represents(hash, genesis, t.store, t.history) && Coalesce(t.store, r).Some?
    requires RowsCarry(t.history.chain, t.store.maximum, js, rs)
    requires LastIsFresh(t.history.chain, t.store.coalesced, js, rs)
    ensures js != [] && t.history.chain != []
    ensures var j, all := js[|js| - 1], rs + [r]; j + 1 < |all| && Repeats(all[j], all[j + 1])
  {
    UnmarkedLast(t.history.chain, t.store.maximum);
    LastRow(hash, genesis, t);
    var j := js[|js| - 1];
    if j == |rs| - 1 {
      FreshCoalesces(rs[j].details, r.details);
    }
  }

  lemma CoalesceStep(hash: HashFunction, t: Traced, js: seq<nat>, rs: seq<Record>, r: Record)
    requires Coalesce(t.store, r).Some? && 2 <= t.store.maximum
    requires RowsCarry(t.history.chain, t.store.maximum, js, rs) && js != [] && t.history.chain != []
    requires var j, all := js[|js| - 1], rs + [r]; j + 1 < |all| && Repeats(all[j], all[j + 1])
    ensures var t' := TracedRecord(hash, t, r);
            RowsCarry(t'.history.chain, t.store.maximum, js, rs + [r])
            && LastIsFresh(t'.history.chain, t'.store.coalesced, js, rs + [r])
  {
    CoalescedChain(hash, t, r);
    RowsCoalesced(t.history.chain, t.store.maximum, Coalesce(t.store, r).value,
                  TracedRecord(hash, t, r).store.coalesced, js, rs, r);
  }

  lemma CoalescedChain(hash: HashFunction, t: Traced, r: Record)
    requires Coalesce(t.store, r).Some? && t.history.chain != []
    ensures var k := |t.history.chain| - 1;
            TracedRecord(hash, t, r).history.chain
            == t.history.chain[k := t.history.chain[k].(details := Coalesce(t.store, r).value)]
  {
  }

  lemma RowsCoalesced(chain: seq<Event>, maximum: nat, details: string, coalesced: Option<string>, js: seq<nat>,
                      rs: seq<Record>, r: Record)
    requires RowsCarry(chain, maximum, js, rs) && js != [] && chain != [] && 2 <= maximum
    requires var j, all := js[|js| - 1], rs + [r]; j + 1 < |all| && Repeats(all[j], all[j + 1])
    ensures var rewritten := chain[|chain| - 1 := chain[|chain| - 1].(details := details)];
            RowsCarry(rewritten, maximum, js, rs + [r]) && LastIsFresh(rewritten, coalesced, js, rs + [r])
  {
    RowsLater(chain, maximum, js, rs, r);
    RowsRewritten(chain, maximum, js, rs + [r], details);
    StaysRepeated(chain, details, coalesced, js, rs, r);
  }

  lemma StaysRepeated(chain: seq<Event>, details: string, coalesced: Option<string>, js: seq<nat>, rs: seq<Record>, r: Record)
    requires js != [] && chain != []
    requires var j, all := js[|js| - 1], rs + [r]; j + 1 < |all| && Repeats(all[j], all[j + 1])
    ensures LastIsFresh(chain[|chain| - 1 := chain[|chain| - 1].(details := details)], coalesced, js, rs + [r])
  {
  }

  ghost predicate HistoryHolds(hash: HashFunction, genesis: Digest, maximum: nat, rs: seq<Record>) {
    var t, js := Run(hash, genesis, maximum, rs), Appending(hash, genesis, maximum, rs);
    t.store.nextSequence < U64_MAX ==>
      RowsCarry(t.history.chain, NewStore(maximum, genesis).maximum, js, rs)
      && LastIsFresh(t.history.chain, t.store.coalesced, js, rs)
  }

  lemma RunNext(hash: HashFunction, genesis: Digest, maximum: nat, rs: seq<Record>, r: Record)
    ensures Run(hash, genesis, maximum, rs + [r]) == TracedRecord(hash, Run(hash, genesis, maximum, rs), r)
    ensures Appending(hash, genesis, maximum, rs + [r])
            == Appending(hash, genesis, maximum, rs)
               + if Coalesce(Run(hash, genesis, maximum, rs).store, r).None? then [|rs|] else []
  {
    assert (rs + [r])[..|rs|] == rs;
    assert Appending(hash, genesis, maximum, rs) + [] == Appending(hash, genesis, maximum, rs);
  }

  lemma HistoryStep(hash: HashFunction, genesis: Digest, maximum: nat, rs: seq<Record>, r: Record)
    requires HistoryHolds(hash, genesis, maximum, rs)
    ensures HistoryHolds(hash, genesis, maximum, rs + [r])
  {
    var t, js := Run(hash, genesis, maximum, rs), Appending(hash, genesis, maximum, rs);
    RunNext(hash, genesis, maximum, rs, r);
    SequenceGrows(hash, t, r);
    if TracedRecord(hash, t, r).store.nextSequence < U64_MAX {
      RunRepresents(hash, genesis, maximum, rs);
      if Coalesce(t.store, r).None? {
        AppendStep(hash, t.store.maximum, t, js, rs, r);
      } else {
        CoalescedRepeats(hash, genesis, t, js, rs, r);
        CoalesceStep(hash, t, js, rs, r);
        assert js + [] == js;
      }
    }
  }

  /** Over every run the history is the appending recordings in order, with the marker among them. */
  lemma HistoryCarries(hash: HashFunction, genesis: Digest, maximum: nat, rs: seq<Record>)
    ensures HistoryHolds(hash, genesis, maximum, rs)
  {
    var keeps := (os: seq<Record>) => HistoryHolds(hash, genesis, maximum, os);
    forall before, r | keeps(before) ensures keeps(before + [r]) {
      HistoryStep(hash, genesis, maximum, before, r);
    }
    SnocInduction(keeps, rs);
  }

  /** What a snapshot shows of the recordings `js` that appended a row: all of them, or the marker of the
      one that overflowed the buffer and then the newest `maximum - 1`. */
  ghost predicate Shows(rows: seq<Event>, maximum: nat, js: seq<nat>, rs: seq<Record>) {
    && (forall i :: 0 <= i < |js| ==> js[i] < |rs|)
    && if |js| <= maximum then
         |rows| == |js| && forall i :: 0 <= i < |js| ==> Made(rows[i], rs, js[i])
       else
         && |rows| == maximum > 0 && IsMarker(rows[0], rs[js[maximum]], maximum)
         && forall i :: 1 <= i < maximum ==> Made(rows[i], rs, js[|js| - maximum + i])
  }

  lemma RetainedShows(chain: seq<Event>, maximum: nat, js: seq<nat>, rs: seq<Record>)
    requires RowsCarry(chain, maximum, js, rs) && 2 <= maximum
    ensures Shows(Retained(chain, maximum), maximum, js, rs)
  {
    var rows := Retained(chain, maximum);
    if |chain| > maximum {
      var events := Recorded(chain, maximum);
      forall i | 1 <= i < maximum ensures Made(rows[i], rs, js[|js| - maximum + i]) {
        assert rows[i] == Last(events, maximum - 1)[i - 1] == events[|js| - maximum + i];
      }
    }
  }

  /** Over every run each row of the snapshot carries time, name and context of the recording that
      appended it, in order and without a gap, and the marker those of the one that overflowed. */
  lemma SnapshotShows(hash: HashFunction, genesis: Digest, maximum: nat, rs: seq<Record>)
    requires Run(hash, genesis, maximum, rs).store.nextSequence < U64_MAX
    ensures Shows(Run(hash, genesis, maximum, rs).store.events, NewStore(maximum, genesis).maximum,
                  Appending(hash, genesis, maximum, rs), rs)
  {
    var t := Run(hash, genesis, maximum, rs);
    RunRepresents(hash, genesis, maximum, rs);
    HistoryCarries(hash, genesis, maximum, rs);
    RetainedShows(t.history.chain, t.store.maximum, Appending(hash, genesis, maximum, rs), rs);
  }

  // ---------------------------------------------------------------------------
  // Counting repeats.

  /** The number written by repeat `n`. */
  function CountOf(n: nat): nat {
    if n < 999_999 then n + 1 else 999_999
  }

  /** Details after `n` repeats of the recording that made them. */
  function Counted(d: string, n: nat): string {
    if n == 0 then d else d + (REPEAT + Decimal(CountOf(n)))
  }

  /** Details without a repeat count that leave room for one of six digits. */
  predicate Countable(d: string) {
    Without(d, REPEAT) && Utf8Len(d) + |REPEAT| + 6 <= MAX_FIELD_LENGTH
  }

  lemma LastCount(d: string, sep: string, count: string)
    requires Separator(sep) && AllDigits(count)
    ensures LastOccurrence(d + (sep + count), sep) == |d|
  {
    var e := d + (sep + count);
    assert e[|d|..|d| + |sep|] == sep;
    LastIs(e, sep, |d|);
    var k := LastOccurrence(e, sep);
    SeparatorAt(e, sep, k, 0);
    assert forall m :: |d| <= m < |e| ==> e[m] == (sep + count)[m - |d|];
  }

  lemma CountFits(d: string, sep: string, count: nat, limit: nat)
    requires Utf8Len(d) + |sep| + 6 <= limit && count <= 999_999 && forall i :: 0 <= i < |sep| ==> sep[i] as int < 128
    ensures TruncateUtf8(d + (sep + Decimal(count)), limit) == d + (sep + Decimal(count))
  {
    assert Pow10(1) == 10 && Pow10(2) == 100 && Pow10(3) == 1000;
    assert Pow10(6) == 1_000_000;
    DecimalLength(count, 6);
    Utf8LenAppend(d, sep + Decimal(count));
    AsciiLen(sep + Decimal(count));
  }

  lemma RepeatIsAscii()
    ensures forall i :: 0 <= i < |REPEAT| ==> REPEAT[i] as int < 128
  {
  }

  lemma CountChosen(marker: Option<string>, d: string, e: string, count: nat)
    requires LastOccurrence(e, REPEAT) == |d| <= |e| && e[..|d|] == d && (|d| == |e| ==> count == 1)
    requires |d| < |e| ==> marker == Some(e) && ParseUnsigned(e[|d| + |REPEAT|..], U32_MAX) == Some(count)
    ensures Coalesced(marker, e, d) == Some(TruncateUtf8(d + REPEAT + Decimal(CountOf(count)), MAX_FIELD_LENGTH))
  {
  }

  lemma CountKept(d: string, sep: string, count: nat, limit: nat)
    requires Utf8Len(d) + |sep| + 6 <= limit && count <= 999_999 && forall i :: 0 <= i < |sep| ==> sep[i] as int < 128
    ensures TruncateUtf8(d + sep + Decimal(count), limit) == d + (sep + Decimal(count))
  {
    CountFits(d, sep, count, limit);
    Associate(d, sep, Decimal(count));
  }

  lemma CountWritten(marker: Option<string>, d: string, e: string, count: nat)
    requires Utf8Len(d) + |REPEAT| + 6 <= MAX_FIELD_LENGTH && LastOccurrence(e, REPEAT) == |d| <= |e| && e[..|d|] == d
    requires |d| == |e| ==> count == 1
    requires |d| < |e| ==> marker == Some(e) && ParseUnsigned(e[|d| + |REPEAT|..], U32_MAX) == Some(count)
    ensures Coalesced(marker, e, d) == Some(d + (REPEAT + Decimal(CountOf(count))))
  {
    RepeatIsAscii();
    CountChosen(marker, d, e, count);
    CountKept(d, REPEAT, CountOf(count), MAX_FIELD_LENGTH);
  }

  lemma CountedFirst(d: string)
    requires Countable(d)
    ensures Coalesced(None, d, d) == Some(Counted(d, 1))
  {
    assert d[..|d|] == d;
    CountWritten(None, d, d, 1);
  }

  lemma CountedStep(d: string, n: nat)
    requires Countable(d) && n > 0
    ensures Coalesced(Some(Counted(d, n)), Counted(d, n), d) == Some(Counted(d, n + 1))
  {
    var count, e := CountOf(n), Counted(d, n);
    RepeatSeparates();
    LastCount(d, REPEAT, Decimal(count));
    CountRead(d, REPEAT, Decimal(count));
    DecimalParses(count, U32_MAX);
    CountWritten(Some(e), d, e, count);
  }

  lemma CountRead(d: string, sep: string, count: string)
    ensures var e := d + (sep + count); e[..|d|] == d && e[|d| + |sep|..] == count
    ensures sep != [] ==> |d| < |d + (sep + count)|
  {
  }

  /** The last row has been repeated `n` times. */
  predicate CountedLast(s: Store, d: string, n: nat) {
    && s.events != [] && s.events[|s.events| - 1].name == LAYOUT_ERROR
    && s.events[|s.events| - 1].details == Counted(d, n)
    && s.coalesced == if n == 0 then None else Some(Counted(d, n))
  }

  lemma CoalesceLast(s: Store, r: Record, details: string, d: string, next: string)
    requires s.events != [] && s.events[|s.events| - 1].name == LAYOUT_ERROR == r.name
    requires s.events[|s.events| - 1].details == details && r.details == d
    requires Coalesced(s.coalesced, details, d) == Some(next)
    ensures Coalesce(s, r) == Some(next)
  {
  }

  lemma CountedCoalesces(s: Store, r: Record, d: string, n: nat)
    requires CountedLast(s, d, n) && Countable(d) && r.name == LAYOUT_ERROR && r.details == d
    ensures Coalesce(s, r) == Some(Counted(d, n + 1))
  {
    CountedNext(s.coalesced, d, n, Counted(d, n), Counted(d, n + 1));
    CoalesceLast(s, r, Counted(d, n), d, Counted(d, n + 1));
  }

  lemma CountedNext(marker: Option<string>, d: string, n: nat, e: string, next: string)
    requires Countable(d) && e == Counted(d, n) && next == Counted(d, n + 1)
    requires marker == if n == 0 then None else Some(e)
    ensures Coalesced(marker, e, d) == Some(next)
  {
    if n == 0 {
      CountedFirst(d);
    } else {
      CountedStep(d, n);
    }
  }

  lemma CountedRewritten(s: Store, d: string, n: nat, details: string)
    requires CountedLast(s, d, n) && details == Counted(d, n + 1)
    ensures CountedLast(Rewritten(s, details), d, n + 1)
  {
  }

  lemma CountedRecord(hash: HashFunction, s: Store, r: Record, d: string, n: nat)
    requires CountedLast(s, d, n) && Countable(d) && r.name == LAYOUT_ERROR && r.details == d
    ensures CountedLast(RecordEvent(hash, s, r), d, n + 1)
  {
    CountedCoalesces(s, r, d, n);
    CountedRewritten(s, d, n, Counted(d, n + 1));
  }

  lemma FirstCounted(hash: HashFunction, s: Store, r: Record)
    requires Coalesce(s, r).None? && r.name == LAYOUT_ERROR
    ensures CountedLast(RecordEvent(hash, s, r), r.details, 0)
  {
  }

  ghost predicate CountsAll(hash: HashFunction, genesis: Digest, maximum: nat, before: seq<Record>, d: string,
                            repeats: seq<Record>) {
    (forall i :: 0 <= i < |repeats| ==> repeats[i].name == LAYOUT_ERROR && repeats[i].details == d) ==>
      CountedLast(Run(hash, genesis, maximum, before + repeats).store, d, |repeats|)
  }

  lemma CountsNext(hash: HashFunction, genesis: Digest, maximum: nat, before: seq<Record>, d: string,
                   repeats: seq<Record>, r: Record)
    requires Countable(d) && CountsAll(hash, genesis, maximum, before, d, repeats)
    ensures CountsAll(hash, genesis, maximum, before, d, repeats + [r])
  {
    var all := repeats + [r];
    assert all[|repeats|] == r && forall i :: 0 <= i < |repeats| ==> all[i] == repeats[i];
    if r.name == LAYOUT_ERROR && r.details == d
       && CountedLast(Run(hash, genesis, maximum, before + repeats).store, d, |repeats|) {
      Associate(before, repeats, [r]);
      RunNext(hash, genesis, maximum, before + repeats, r);
      CountedRecord(hash, Run(hash, genesis, maximum, before + repeats).store, r, d, |repeats|);
    }
  }

  /** A layout error that appends a row and is then repeated any number of times leaves one row that says
      how often it was recorded, up to 999999. */
  lemma RepeatsAreCounted(hash: HashFunction, genesis: Digest, maximum: nat, before: seq<Record>, r: Record,
                          repeats: seq<Record>)
    requires Coalesce(Run(hash, genesis, maximum, before).store, r).None? && r.name == LAYOUT_ERROR && Countable(r.details)
    requires forall i :: 0 <= i < |repeats| ==> repeats[i].name == LAYOUT_ERROR && repeats[i].details == r.details
    ensures CountedLast(Run(hash, genesis, maximum, before + [r] + repeats).store, r.details, |repeats|)
  {
    var d := r.details;
    assert before + [r] + [] == before + [r];
    RunNext(hash, genesis, maximum, before, r);
    FirstCounted(hash, Run(hash, genesis, maximum, before).store, r);
    var keeps := (tail: seq<Record>) => CountsAll(hash, genesis, maximum, before + [r], d, tail);
    forall tail, x | keeps(tail) ensures keeps(tail + [x]) {
      CountsNext(hash, genesis, maximum, before + [r], d, tail, x);
    }
    SnocInduction(keeps, repeats);
  }
}
