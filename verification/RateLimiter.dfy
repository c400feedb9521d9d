/** The per-process sliding-window rate limiter of the IPC server. */
module RateLimiter {
  import opened Options

  /** One second in nanoseconds; times count from the clock's origin. */
  const WINDOW: nat := 1_000_000_000
  const MAX_REQUESTS: nat := 10
  const MAX_TRACKED: nat := 64

  datatype PidRecord = PidRecord(pid: nat, stamps: seq<nat>, lastSeen: nat)

  /** `checked_sub(WINDOW).unwrap_or(now)`. */
  function Cutoff(now: nat): nat {
    if now >= WINDOW then now - WINDOW else now
  }

  /** `retain(|t| t > cutoff)`. */
  function Retain(stamps: seq<nat>, cutoff: nat): (r: seq<nat>)
    ensures |r| <= |stamps|
  {
    if stamps == [] then []
    else if stamps[0] > cutoff then [stamps[0]] + Retain(stamps[1..], cutoff)
    else Retain(stamps[1..], cutoff)
  }

  predicate Distinct(rs: seq<PidRecord>) {
    forall i, j :: 0 <= i < j < |rs| ==> rs[i].pid != rs[j].pid
  }

  /** Index of the record for `pid`, or the length when there is none. */
  function Position(rs: seq<PidRecord>, pid: nat): (k: nat)
    ensures k <= |rs|
    ensures k < |rs| ==> rs[k].pid == pid
    ensures forall i :: 0 <= i < k ==> rs[i].pid != pid
  {
    if rs == [] then 0 else if rs[0].pid == pid then 0 else 1 + Position(rs[1..], pid)
  }

  predicate OlderOrEqual(a: PidRecord, b: PidRecord) {
    a.lastSeen < b.lastSeen || (a.lastSeen == b.lastSeen && a.pid <= b.pid)
  }

  /** `min_by` on (last_seen, pid): the first of the least. */
  function OldestIndex(rs: seq<PidRecord>): (k: nat)
    requires rs != []
    ensures k < |rs|
    ensures forall i :: 0 <= i < |rs| ==> OlderOrEqual(rs[k], rs[i])
    ensures forall i :: 0 <= i < k ==> !OlderOrEqual(rs[i], rs[k])
  {
    var init := rs[..|rs| - 1];
    if init == [] then 0
    else
      var k := OldestIndex(init);
      if OlderOrEqual(rs[k], rs[|rs| - 1]) then k else |rs| - 1
  }

  function RemoveAt(rs: seq<PidRecord>, k: nat): seq<PidRecord>
    requires k < |rs|
  {
    rs[..k] + rs[k + 1..]
  }

  predicate Evicts(rs: seq<PidRecord>, pid: nat) {
    Position(rs, pid) == |rs| >= MAX_TRACKED
  }

  /** The table with a record for `pid`, made room for when it is full. */
  function WithRecord(rs: seq<PidRecord>, pid: nat, now: nat): (r: seq<PidRecord>)
    ensures Position(r, pid) < |r|
  {
    if Position(rs, pid) < |rs| then rs
    else
      var kept := if |rs| >= MAX_TRACKED then RemoveAt(rs, OldestIndex(rs)) else rs;
      var r := kept + [PidRecord(pid, [], now)];
      assert r[|r| - 1].pid == pid;
      r
  }

  datatype Outcome = Outcome(records: seq<PidRecord>, accepted: bool)

  function Check(rs: seq<PidRecord>, pid: nat, now: nat): Outcome {
    var rs := WithRecord(rs, pid, now);
    var k := Position(rs, pid);
    var stamps := Retain(rs[k].stamps, Cutoff(now));
    if |stamps| >= MAX_REQUESTS then
      Outcome(rs[k := PidRecord(pid, stamps, now)], false)
    else
      Outcome(rs[k := PidRecord(pid, stamps + [now], now)], true)
  }

  function Prune(rs: seq<PidRecord>, now: nat): (r: seq<PidRecord>)
    ensures |r| <= |rs|
  {
    if rs == [] then []
    else
      var stamps := Retain(rs[0].stamps, Cutoff(now));
      var rest := Prune(rs[1..], now);
      if stamps == [] then rest else [rs[0].(stamps := stamps)] + rest
  }

  /** The source's object. Its vector of records is reassigned as the methods mutate it. */
  class PidRateLimiter {
    var records: seq<PidRecord>

    constructor ()
      ensures records == []
    {
      records := [];
    }

    method FindPid(pid: nat) returns (k: nat)
      ensures k == Position(records, pid)
    {
      k := 0;
      while k < |records| && records[k].pid != pid
        invariant k <= |records|
        invariant Position(records, pid) == k + Position(records[k..], pid)
      {
        k := k + 1;
      }
    }

    method EvictLeastRecentlySeen()
      modifies this
      ensures records == if old(records) == [] then []
                         else RemoveAt(old(records), OldestIndex(old(records)))
    {
      if records == [] {
        return;
      }
      var best, i := 0, 1;
      while i < |records|
        invariant 1 <= i <= |records| && best < i
        invariant best == OldestIndex(records[..i])
      {
        assert records[..i + 1][..i] == records[..i];
        if !OlderOrEqual(records[best], records[i]) {
          best := i;
        }
        i := i + 1;
      }
      assert records[..i] == records;
      records := RemoveAt(records, best);
    }

    method CheckAndRecord(pid: nat, now: nat) returns (accepted: bool)
      modifies this
      ensures Outcome(records, accepted) == Check(old(records), pid, now)
    {
      var cutoff := Cutoff(now);
      var index := FindPid(pid);
      if index == |records| {
        if |records| >= MAX_TRACKED {
          EvictLeastRecentlySeen();
        }
        records := records + [PidRecord(pid, [], now)];
      }
      assert records == WithRecord(old(records), pid, now);
      index := FindPid(pid);
      var record := records[index].(lastSeen := now);
      record := record.(stamps := Retain(record.stamps, cutoff));
      accepted := |record.stamps| < MAX_REQUESTS;
      if accepted {
        record := record.(stamps := record.stamps + [now]);
      }
      records := records[index := record];
    }

    method PruneIdleCallers(now: nat)
      modifies this
      ensures records == Prune(old(records), now)
    {
      var cutoff := Cutoff(now);
      var kept: seq<PidRecord> := [];
      for i := 0 to |records|
        invariant records == old(records)
        invariant kept + Prune(records[i..], now) == Prune(records, now)
      {
        var stamps := Retain(records[i].stamps, cutoff);
        if stamps != [] {
          kept := kept + [records[i].(stamps := stamps)];
        }
      }
      records := kept;
    }
  }

  // ---------------------------------------------------------------------------
  // The reference: the full list of accepted requests of each process.

  type History = map<nat, seq<nat>>

  function Accepted(h: History, pid: nat): seq<nat> {
    if pid in h then h[pid] else []
  }

  /** How many of the times lie within the window that ends at `now`. */
  function InWindow(times: seq<nat>, now: nat): nat {
    if times == [] then 0 else (if times[0] + WINDOW > now then 1 else 0) + InWindow(times[1..], now)
  }

  predicate Ordered(times: seq<nat>, upTo: nat) {
    && (forall i, j :: 0 <= i < j < |times| ==> times[i] <= times[j])
    && (forall i :: 0 <= i < |times| ==> times[i] <= upTo)
  }

  /** Any eleven consecutive acceptances span at least one window. */
  predicate Spaced(times: seq<nat>) {
    forall i :: 0 <= i < |times| - MAX_REQUESTS ==> times[i] + WINDOW <= times[i + MAX_REQUESTS]
  }

  /** The kept stamps are the newest of the history, and everything dropped has left the window. */
  predicate Covers(times: seq<nat>, stamps: seq<nat>, clock: nat) {
    && |stamps| <= |times|
    && stamps == times[|times| - |stamps|..]
    && (forall i :: 0 <= i < |times| - |stamps| ==> times[i] + WINDOW <= clock)
  }

  function Stamps(rs: seq<PidRecord>, pid: nat): seq<nat> {
    var k := Position(rs, pid);
    if k < |rs| then rs[k].stamps else []
  }

  predicate WellKept(rs: seq<PidRecord>, clock: nat) {
    && Distinct(rs)
    && |rs| <= MAX_TRACKED
    && (forall i :: 0 <= i < |rs| ==>
          |rs[i].stamps| <= MAX_REQUESTS && Ordered(rs[i].stamps, rs[i].lastSeen) && rs[i].lastSeen <= clock)
  }

  predicate Faithful(h: History, rs: seq<PidRecord>, clock: nat, pid: nat) {
    var times := Accepted(h, pid);
    Ordered(times, clock) && Spaced(times) && Covers(times, Stamps(rs, pid), clock)
  }

  ghost predicate Tracks(rs: seq<PidRecord>, h: History, clock: nat) {
    WellKept(rs, clock) && forall pid: nat :: Faithful(h, rs, clock, pid)
  }

  // Counting the window.

  lemma {:induction false} InWindowAppend(a: seq<nat>, b: seq<nat>, now: nat)
    ensures InWindow(a + b, now) == InWindow(a, now) + InWindow(b, now)
  {
    if a == [] {
      assert a + b == b;
    } else {
      InWindowAppend(a[1..], b, now);
      assert (a + b)[1..] == a[1..] + b;
    }
  }

  lemma {:induction false} NoneInWindow(times: seq<nat>, now: nat)
    requires forall i :: 0 <= i < |times| ==> times[i] + WINDOW <= now
    ensures InWindow(times, now) == 0
  {
    if times != [] {
      NoneInWindow(times[1..], now);
    }
  }

  /** Retaining keeps the newest stamps, counts the window and drops nothing that is still in it. */
  lemma {:induction false} RetainIsWindow(stamps: seq<nat>, now: nat)
    requires now >= WINDOW
    requires forall i, j :: 0 <= i < j < |stamps| ==> stamps[i] <= stamps[j]
    ensures var r := Retain(stamps, Cutoff(now));
            |r| == InWindow(stamps, now) && Covers(stamps, r, now)
  {
    if stamps != [] {
      RetainIsWindow(stamps[1..], now);
      if stamps[0] > Cutoff(now) {
        RetainAll(stamps, Cutoff(now));
      }
    }
  }

  lemma {:induction false} RetainAll(stamps: seq<nat>, cutoff: nat)
    requires forall i :: 0 <= i < |stamps| ==> stamps[i] > cutoff
    ensures Retain(stamps, cutoff) == stamps
  {
    if stamps != [] {
      RetainAll(stamps[1..], cutoff);
      assert stamps == [stamps[0]] + stamps[1..];
    }
  }

  lemma {:induction false} RetainNone(stamps: seq<nat>, cutoff: nat)
    requires forall i :: 0 <= i < |stamps| ==> stamps[i] <= cutoff
    ensures Retain(stamps, cutoff) == []
  {
    if stamps != [] {
      RetainNone(stamps[1..], cutoff);
    }
  }

  lemma CoversCount(times: seq<nat>, stamps: seq<nat>, clock: nat, now: nat)
    requires Covers(times, stamps, clock) && clock <= now
    ensures InWindow(times, now) == InWindow(stamps, now)
  {
    var k := |times| - |stamps|;
    assert times == times[..k] + times[k..];
    InWindowAppend(times[..k], times[k..], now);
    NoneInWindow(times[..k], now);
  }

  lemma CoversCompose(times: seq<nat>, stamps: seq<nat>, kept: seq<nat>, clock: nat, now: nat)
    requires Covers(times, stamps, clock) && Covers(stamps, kept, now) && clock <= now
    ensures Covers(times, kept, now)
  {
    var k := |times| - |stamps|;
    forall i | 0 <= i < |times| - |kept| ensures times[i] + WINDOW <= now {
      if i >= k {
        assert times[i] == stamps[i - k];
      }
    }
  }

  // What each table change does to the stamps of every process.

  lemma StampsAt(rs: seq<PidRecord>, k: nat)
    requires Distinct(rs) && k < |rs|
    ensures Position(rs, rs[k].pid) == k && Stamps(rs, rs[k].pid) == rs[k].stamps
  {
  }

  lemma RemoveDistinct(rs: seq<PidRecord>, k: nat)
    requires Distinct(rs) && k < |rs|
    ensures Distinct(RemoveAt(rs, k))
    ensures forall i :: 0 <= i < |RemoveAt(rs, k)| ==> RemoveAt(rs, k)[i].pid != rs[k].pid
  {
    var r := RemoveAt(rs, k);
    assert forall i :: 0 <= i < |r| ==> r[i] == rs[if i < k then i else i + 1];
  }

  lemma RemoveKeeps(rs: seq<PidRecord>, k: nat, q: nat)
    requires Distinct(rs) && k < |rs|
    ensures var r := RemoveAt(rs, k);
            Distinct(r) && Stamps(r, q) == if q == rs[k].pid then [] else Stamps(rs, q)
  {
    var r, p := RemoveAt(rs, k), Position(rs, q);
    RemoveDistinct(rs, k);
    if p < k {
      assert r[p] == rs[p];
      StampsAt(r, p);
    } else if k < p < |rs| {
      assert r[p - 1] == rs[p];
      StampsAt(r, p - 1);
    } else {
      assert forall i :: 0 <= i < |r| ==> r[i].pid != q;
    }
  }

  lemma AppendKeeps(rs: seq<PidRecord>, rec: PidRecord, q: nat)
    requires Distinct(rs) && forall i :: 0 <= i < |rs| ==> rs[i].pid != rec.pid
    ensures var r := rs + [rec];
            Distinct(r) && Stamps(r, q) == if q == rec.pid then rec.stamps else Stamps(rs, q)
  {
    var r, p := rs + [rec], Position(rs, q);
    StampsAt(r, |rs|);
    if p < |rs| {
      StampsAt(r, p);
    }
  }

  lemma UpdateKeeps(rs: seq<PidRecord>, k: nat, rec: PidRecord, q: nat)
    requires Distinct(rs) && k < |rs| && rs[k].pid == rec.pid
    ensures var r := rs[k := rec];
            Distinct(r) && Stamps(r, q) == if q == rec.pid then rec.stamps else Stamps(rs, q)
  {
    var r, p := rs[k := rec], Position(rs, q);
    StampsAt(r, k);
    StampsAt(rs, k);
    if p < |rs| {
      StampsAt(r, p);
    }
  }

  lemma WithRecordKeeps(rs: seq<PidRecord>, pid: nat, now: nat, q: nat)
    requires Distinct(rs)
    ensures var r := WithRecord(rs, pid, now);
            Distinct(r) && Stamps(r, q) ==
              if Evicts(rs, pid) && q == rs[OldestIndex(rs)].pid then [] else Stamps(rs, q)
  {
    if Position(rs, pid) == |rs| {
      var rec := PidRecord(pid, [], now);
      if |rs| >= MAX_TRACKED {
        var k := OldestIndex(rs);
        RemoveKeeps(rs, k, q);
        AppendKeeps(RemoveAt(rs, k), rec, q);
      } else {
        AppendKeeps(rs, rec, q);
      }
    }
  }

  /** What one request does to the stamps of any process `q`. */
  function StampsAfter(rs: seq<PidRecord>, pid: nat, now: nat, q: nat): seq<nat> {
    if q == pid then
      var kept := Retain(Stamps(rs, pid), Cutoff(now));
      if |kept| < MAX_REQUESTS then kept + [now] else kept
    else if Evicts(rs, pid) && q == rs[OldestIndex(rs)].pid then []
    else Stamps(rs, q)
  }

  lemma CheckStamps(rs: seq<PidRecord>, pid: nat, now: nat, q: nat)
    requires Distinct(rs)
    ensures var out := Check(rs, pid, now);
            && Distinct(out.records)
            && (out.accepted <==> |Retain(Stamps(rs, pid), Cutoff(now))| < MAX_REQUESTS)
            && Stamps(out.records, q) == StampsAfter(rs, pid, now, q)
  {
    var full := WithRecord(rs, pid, now);
    WithRecordKeeps(rs, pid, now, pid);
    WithRecordKeeps(rs, pid, now, q);
    var k := Position(full, pid);
    StampsAt(full, k);
    UpdateKeeps(full, k, Check(rs, pid, now).records[k], q);
  }

  lemma {:induction false} PruneOrigin(rs: seq<PidRecord>, now: nat, i: nat) returns (j: nat)
    requires i < |Prune(rs, now)|
    ensures j < |rs| && Prune(rs, now)[i] == rs[j].(stamps := Retain(rs[j].stamps, Cutoff(now)))
  {
    if Retain(rs[0].stamps, Cutoff(now)) == [] {
      j := PruneOrigin(rs[1..], now, i);
      j := j + 1;
    } else if i == 0 {
      j := 0;
    } else {
      j := PruneOrigin(rs[1..], now, i - 1);
      j := j + 1;
    }
  }

  lemma PruneAddsNone(rs: seq<PidRecord>, now: nat, pid: nat)
    requires forall j :: 0 <= j < |rs| ==> rs[j].pid != pid
    ensures forall i :: 0 <= i < |Prune(rs, now)| ==> Prune(rs, now)[i].pid != pid
  {
    forall i | 0 <= i < |Prune(rs, now)| ensures Prune(rs, now)[i].pid != pid {
      var j := PruneOrigin(rs, now, i);
    }
  }

  lemma StampsOfCons(rec: PidRecord, rest: seq<PidRecord>, q: nat)
    ensures Stamps([rec] + rest, q) == if q == rec.pid then rec.stamps else Stamps(rest, q)
  {
    var rs := [rec] + rest;
    assert rs[1..] == rest;
  }

  lemma {:induction false} PruneDistinct(rs: seq<PidRecord>, now: nat)
    requires Distinct(rs)
    ensures Distinct(Prune(rs, now))
  {
    if rs != [] {
      PruneDistinct(rs[1..], now);
      PruneAddsNone(rs[1..], now, rs[0].pid);
    }
  }

  lemma AbsentStamps(rs: seq<PidRecord>, q: nat)
    requires forall j :: 0 <= j < |rs| ==> rs[j].pid != q
    ensures Stamps(rs, q) == []
  {
  }

  lemma {:induction false} PruneKeeps(rs: seq<PidRecord>, now: nat, q: nat)
    requires Distinct(rs)
    ensures Stamps(Prune(rs, now), q) == Retain(Stamps(rs, q), Cutoff(now))
  {
    if rs != [] {
      var tail := rs[1..];
      assert rs == [rs[0]] + tail;
      StampsOfCons(rs[0], tail, q);
      StampsOfCons(rs[0].(stamps := Retain(rs[0].stamps, Cutoff(now))), Prune(tail, now), q);
      if q == rs[0].pid {
        PruneAddsNone(tail, now, q);
        AbsentStamps(Prune(tail, now), q);
      } else {
        PruneKeeps(tail, now, q);
      }
    }
  }

  // ---------------------------------------------------------------------------
  // Runs.

  datatype Op = Request(pid: nat, now: nat) | PruneIdle(now: nat)

  /** `history` holds every acceptance since the process's last eviction, and `known` those of them
      that the limiter still accounts for. */
  datatype State = State(records: seq<PidRecord>, history: History, known: History, clock: nat)

  function Forget(h: History, rs: seq<PidRecord>, pid: nat): History {
    if Evicts(rs, pid) then h - {rs[OldestIndex(rs)].pid} else h
  }

  function Note(h: History, pid: nat, now: nat, accepted: bool): History {
    if accepted then h[pid := Accepted(h, pid) + [now]] else h
  }

  /** One operation on the limiter, beside the histories it is compared with. Only eviction erases
      history. Within one window of the clock's origin the limiter forgets more: a request drops all
      the earlier acceptances of its process, and pruning drops everybody's. */
  function Step(s: State, op: Op): State {
    match op
    case Request(pid, now) =>
      var out := Check(s.records, pid, now);
      var known := Forget(s.known, s.records, pid);
      State(out.records, Note(Forget(s.history, s.records, pid), pid, now, out.accepted),
            if now < WINDOW then known[pid := [now]] else Note(known, pid, now, out.accepted), now)
    case PruneIdle(now) =>
      State(Prune(s.records, now), s.history, if now < WINDOW then map[] else s.known, now)
  }

  function Run(ops: seq<Op>): State {
    if ops == [] then State([], map[], map[], 0) else Step(Run(ops[..|ops| - 1]), ops[|ops| - 1])
  }

  /** Times never decrease. */
  predicate InOrder(ops: seq<Op>) {
    forall i, j :: 0 <= i < j < |ops| ==> ops[i].now <= ops[j].now
  }

  /** Besides, all lie at least one window after the clock's origin. */
  predicate Timely(ops: seq<Op>) {
    InOrder(ops) && forall i :: 0 <= i < |ops| ==> ops[i].now >= WINDOW
  }

  /** The pruned table decides exactly as all the acceptances it accounts for. */
  lemma CheckDecides(s: State, pid: nat, now: nat)
    requires Tracks(s.records, s.known, s.clock) && s.clock <= now && WINDOW <= now
    ensures Check(s.records, pid, now).accepted <==> InWindow(Accepted(s.known, pid), now) < MAX_REQUESTS
  {
    CheckStamps(s.records, pid, now, pid);
    assert Faithful(s.known, s.records, s.clock, pid);
    var stamps := Stamps(s.records, pid);
    RetainIsWindow(stamps, now);
    CoversCount(Accepted(s.known, pid), stamps, s.clock, now);
  }

  lemma {:induction false} SpacedGrows(times: seq<nat>, now: nat)
    requires Ordered(times, now) && Spaced(times) && InWindow(times, now) < MAX_REQUESTS
    ensures Ordered(times + [now], now) && Spaced(times + [now])
  {
    var k := |times| - MAX_REQUESTS;
    if k >= 0 {
      var newest := times[k..];
      assert times == times[..k] + newest;
      InWindowAppend(times[..k], newest, now);
      if times[k] + WINDOW > now {
        AllInWindow(newest, now);
      }
    }
  }

  lemma {:induction false} AllInWindow(times: seq<nat>, now: nat)
    requires forall i :: 0 <= i < |times| ==> times[i] + WINDOW > now
    ensures InWindow(times, now) == |times|
  {
    if times != [] {
      AllInWindow(times[1..], now);
    }
  }

  lemma OrderedLater(times: seq<nat>, a: nat, b: nat)
    requires Ordered(times, a) && a <= b
    ensures Ordered(times, b)
  {
  }

  /** One decision, on the history and the kept stamps of the caller alone. */
  lemma CallerKeeps(times: seq<nat>, stamps: seq<nat>, clock: nat, now: nat)
    requires Ordered(times, clock) && Spaced(times) && Covers(times, stamps, clock)
    requires clock <= now && WINDOW <= now && |stamps| <= MAX_REQUESTS
    ensures var kept := Retain(stamps, Cutoff(now));
            if |kept| < MAX_REQUESTS then
              && Ordered(times + [now], now) && Spaced(times + [now])
              && Covers(times + [now], kept + [now], now) && Ordered(kept + [now], now)
            else
              Ordered(times, now) && Covers(times, kept, now) && Ordered(kept, now)
  {
    var kept := Retain(stamps, Cutoff(now));
    RetainIsWindow(stamps, now);
    CoversCompose(times, stamps, kept, clock, now);
    CoversCount(times, stamps, clock, now);
    OrderedLater(times, clock, now);
    NewestOrdered(times, kept, now);
    if |kept| < MAX_REQUESTS {
      SpacedGrows(times, now);
      CoversGrows(times, kept, now);
      NewestOrdered(times + [now], kept + [now], now);
    }
  }

  lemma NewestOrdered(times: seq<nat>, kept: seq<nat>, now: nat)
    requires Ordered(times, now) && Covers(times, kept, now)
    ensures Ordered(kept, now)
  {
    var k := |times| - |kept|;
    assert forall i :: 0 <= i < |kept| ==> kept[i] == times[k + i];
  }

  lemma CoversGrows(times: seq<nat>, kept: seq<nat>, now: nat)
    requires Covers(times, kept, now)
    ensures Covers(times + [now], kept + [now], now)
  {
    var k := |times| - |kept|;
    assert (times + [now])[k..] == times[k..] + [now];
  }

  lemma StampsBound(rs: seq<PidRecord>, clock: nat, pid: nat)
    requires WellKept(rs, clock)
    ensures |Stamps(rs, pid)| <= MAX_REQUESTS && Ordered(Stamps(rs, pid), clock)
  {
  }

  function After(s: State, h: History, pid: nat, now: nat, q: nat): seq<nat> {
    if q == pid then
      if Check(s.records, pid, now).accepted then Accepted(h, pid) + [now] else Accepted(h, pid)
    else if Evicts(s.records, pid) && q == s.records[OldestIndex(s.records)].pid then []
    else Accepted(h, q)
  }

  lemma HistoryOf(s: State, pid: nat, now: nat, q: nat)
    ensures Accepted(Step(s, Request(pid, now)).history, q) == After(s, s.history, pid, now, q)
  {
  }

  lemma KnownOf(s: State, pid: nat, now: nat, q: nat)
    ensures Accepted(Step(s, Request(pid, now)).known, q)
            == if now < WINDOW && q == pid then [now] else After(s, s.known, pid, now, q)
  {
  }

  /** What a request does to the process that made it. */
  lemma RequestOfCaller(s: State, pid: nat, now: nat)
    requires Tracks(s.records, s.known, s.clock) && s.clock <= now && WINDOW <= now
    ensures var s' := Step(s, Request(pid, now));
            && Faithful(s'.known, s'.records, now, pid)
            && |Stamps(s'.records, pid)| <= MAX_REQUESTS && Ordered(Stamps(s'.records, pid), now)
  {
    CheckStamps(s.records, pid, now, pid);
    KnownOf(s, pid, now, pid);
    assert Faithful(s.known, s.records, s.clock, pid);
    StampsBound(s.records, s.clock, pid);
    CallerKeeps(Accepted(s.known, pid), Stamps(s.records, pid), s.clock, now);
  }

  /** What it does to every other process: nothing, unless that one was evicted. */
  lemma RequestOfOthers(s: State, pid: nat, now: nat, q: nat)
    requires Tracks(s.records, s.known, s.clock) && s.clock <= now && q != pid
    ensures var s' := Step(s, Request(pid, now));
            Faithful(s'.known, s'.records, now, q)
  {
    CheckStamps(s.records, pid, now, q);
    KnownOf(s, pid, now, q);
    assert Faithful(s.known, s.records, s.clock, q);
    OrderedLater(Accepted(s.known, q), s.clock, now);
  }

  lemma RemoveWellKept(rs: seq<PidRecord>, k: nat, clock: nat)
    requires WellKept(rs, clock) && k < |rs|
    ensures WellKept(RemoveAt(rs, k), clock)
  {
    var r := RemoveAt(rs, k);
    assert forall i :: 0 <= i < |r| ==> r[i] == rs[if i < k then i else i + 1];
  }

  lemma AppendWellKept(rs: seq<PidRecord>, pid: nat, clock: nat, now: nat)
    requires WellKept(rs, clock) && clock <= now && |rs| < MAX_TRACKED
    requires forall i :: 0 <= i < |rs| ==> rs[i].pid != pid
    ensures WellKept(rs + [PidRecord(pid, [], now)], now)
  {
  }

  lemma WithRecordWellKept(rs: seq<PidRecord>, pid: nat, now: nat, clock: nat)
    requires WellKept(rs, clock) && clock <= now
    ensures WellKept(WithRecord(rs, pid, now), now)
  {
    if Position(rs, pid) == |rs| {
      if |rs| >= MAX_TRACKED {
        var k := OldestIndex(rs);
        RemoveWellKept(rs, k, clock);
        AppendWellKept(RemoveAt(rs, k), pid, clock, now);
      } else {
        AppendWellKept(rs, pid, clock, now);
      }
    }
  }

  lemma RequestKeepsTable(s: State, pid: nat, now: nat)
    requires Tracks(s.records, s.known, s.clock) && s.clock <= now && WINDOW <= now
    ensures WellKept(Step(s, Request(pid, now)).records, now)
  {
    var full, out := WithRecord(s.records, pid, now), Check(s.records, pid, now).records;
    WithRecordWellKept(s.records, pid, now, s.clock);
    RequestOfCaller(s, pid, now);
    CheckStamps(s.records, pid, now, pid);
    StampsAt(out, Position(full, pid));
  }

  lemma PruneKeepsTracks(s: State, now: nat)
    requires Tracks(s.records, s.known, s.clock) && s.clock <= now && WINDOW <= now
    ensures Tracks(Prune(s.records, now), s.known, now)
  {
    var r := Prune(s.records, now);
    forall pid: nat ensures Faithful(s.known, r, now, pid) {
      assert Faithful(s.known, s.records, s.clock, pid);
      PruneKeeps(s.records, now, pid);
      var times, stamps := Accepted(s.known, pid), Stamps(s.records, pid);
      RetainIsWindow(stamps, now);
      CoversCompose(times, stamps, Retain(stamps, Cutoff(now)), s.clock, now);
      OrderedLater(times, s.clock, now);
    }
    forall i | 0 <= i < |r|
      ensures |r[i].stamps| <= MAX_REQUESTS && Ordered(r[i].stamps, r[i].lastSeen) && r[i].lastSeen <= now
    {
      var j := PruneOrigin(s.records, now, i);
      RetainIsWindow(s.records[j].stamps, now);
    }
    PruneDistinct(s.records, now);
  }

  // ---------------------------------------------------------------------------
  // Before one window has passed since the clock's origin the subtraction underflows.

  /** There the cutoff is the present, every stamp is dropped and every request is accepted. */
  lemma EarlyCheckAccepts(rs: seq<PidRecord>, clock: nat, pid: nat, now: nat)
    requires WellKept(rs, clock) && clock <= now < WINDOW
    ensures Check(rs, pid, now).accepted
    ensures Stamps(Check(rs, pid, now).records, pid) == [now]
    ensures WellKept(Check(rs, pid, now).records, now)
  {
    CheckStamps(rs, pid, now, pid);
    RetainNone(Stamps(rs, pid), now);
    WithRecordWellKept(rs, pid, now, clock);
    var out := Check(rs, pid, now).records;
    StampsAt(out, Position(WithRecord(rs, pid, now), pid));
  }

  /** And pruning empties the whole table. */
  lemma {:induction false} EarlyPruneEmpties(rs: seq<PidRecord>, clock: nat, now: nat)
    requires clock <= now < WINDOW
    requires forall i :: 0 <= i < |rs| ==> Ordered(rs[i].stamps, rs[i].lastSeen) && rs[i].lastSeen <= clock
    ensures Prune(rs, now) == []
  {
    if rs != [] {
      RetainNone(rs[0].stamps, now);
      EarlyPruneEmpties(rs[1..], clock, now);
    }
  }

  lemma EarlyStepTracks(s: State, op: Op)
    requires Tracks(s.records, s.known, s.clock) && s.clock <= op.now < WINDOW
    ensures var s' := Step(s, op); Tracks(s'.records, s'.known, s'.clock)
  {
    match op
    case PruneIdle(now) => EarlyPruneEmpties(s.records, s.clock, now);
    case Request(pid, now) =>
      var s' := Step(s, op);
      EarlyCheckAccepts(s.records, s.clock, pid, now);
      forall q: nat ensures Faithful(s'.known, s'.records, now, q) {
        KnownOf(s, pid, now, q);
        if q != pid {
          RequestOfOthers(s, pid, now, q);
        }
      }
  }

  lemma LateStepTracks(s: State, op: Op)
    requires Tracks(s.records, s.known, s.clock) && s.clock <= op.now && WINDOW <= op.now
    ensures var s' := Step(s, op); Tracks(s'.records, s'.known, s'.clock)
  {
    match op
    case PruneIdle(now) => PruneKeepsTracks(s, now);
    case Request(pid, now) =>
      var s' := Step(s, op);
      RequestKeepsTable(s, pid, now);
      forall q: nat ensures Faithful(s'.known, s'.records, now, q) {
        if q == pid {
          RequestOfCaller(s, pid, now);
        } else {
          RequestOfOthers(s, pid, now, q);
        }
      }
  }

  /** Every operation, early or late, keeps the table's bounds and its agreement with what it still
      accounts for. */
  lemma StepKeepsTracks(s: State, op: Op)
    requires Tracks(s.records, s.known, s.clock) && s.clock <= op.now
    ensures var s' := Step(s, op); Tracks(s'.records, s'.known, s'.clock)
  {
    if op.now < WINDOW {
      EarlyStepTracks(s, op);
    } else {
      LateStepTracks(s, op);
    }
  }

  // ---------------------------------------------------------------------------
  // What is accounted for, against everything that was accepted.

  /** The acceptances that were dropped although no eviction asked for it. */
  function Dropped(full: seq<nat>, known: seq<nat>): seq<nat>
    requires |known| <= |full|
  {
    full[..|full| - |known|]
  }

  /** Only acceptances within one window of the clock's origin are dropped, the oldest first, and at
      most one of them, the latest, is ever kept. */
  predicate Remembers(full: seq<nat>, known: seq<nat>, clock: nat) {
    && |known| <= |full| && known == full[|full| - |known|..]
    && Ordered(full, clock)
    && (forall i :: 0 <= i < |full| - |known| ==> full[i] < WINDOW)
    && (forall i :: 0 < i < |known| ==> known[i] >= WINDOW)
  }

  ghost predicate RemembersAll(s: State) {
    forall pid: nat :: Remembers(Accepted(s.history, pid), Accepted(s.known, pid), s.clock)
  }

  lemma RemembersLater(full: seq<nat>, known: seq<nat>, clock: nat, now: nat)
    requires Remembers(full, known, clock) && clock <= now
    ensures Remembers(full, known, now)
  {
  }

  lemma RemembersMore(full: seq<nat>, known: seq<nat>, clock: nat, now: nat)
    requires Remembers(full, known, clock) && clock <= now && WINDOW <= now
    ensures Remembers(full + [now], known + [now], now)
  {
    CoversSuffix(full, known, now);
  }

  lemma CoversSuffix<T>(full: seq<T>, known: seq<T>, x: T)
    requires |known| <= |full| && known == full[|full| - |known|..]
    ensures (full + [x])[|full| - |known|..] == known + [x]
  {
  }

  lemma RemembersLast(full: seq<nat>, known: seq<nat>, clock: nat, now: nat)
    requires Remembers(full, known, clock) && clock <= now < WINDOW
    ensures Remembers(full + [now], [now], now) && Remembers(full, [], now)
  {
    assert (full + [now])[|full|..] == [now] && full[|full|..] == [];
  }

  lemma RequestRemembers(s: State, pid: nat, now: nat, q: nat)
    requires Tracks(s.records, s.known, s.clock) && s.clock <= now
    requires Remembers(Accepted(s.history, q), Accepted(s.known, q), s.clock)
    ensures var s' := Step(s, Request(pid, now)); Remembers(Accepted(s'.history, q), Accepted(s'.known, q), now)
  {
    var full, known := Accepted(s.history, q), Accepted(s.known, q);
    RemembersLater(full, known, s.clock, now);
    HistoryOf(s, pid, now, q);
    KnownOf(s, pid, now, q);
    if now < WINDOW {
      EarlyCheckAccepts(s.records, s.clock, pid, now);
      RemembersLast(full, known, s.clock, now);
    } else {
      RemembersMore(full, known, s.clock, now);
    }
  }

  lemma StepRemembers(s: State, op: Op)
    requires Tracks(s.records, s.known, s.clock) && RemembersAll(s) && s.clock <= op.now
    ensures RemembersAll(Step(s, op))
  {
    var s' := Step(s, op);
    forall q: nat ensures Remembers(Accepted(s'.history, q), Accepted(s'.known, q), s'.clock) {
      var full, known := Accepted(s.history, q), Accepted(s.known, q);
      assert Remembers(full, known, s.clock);
      match op
      case Request(pid, now) => RequestRemembers(s, pid, now, q);
      case PruneIdle(now) =>
        RemembersLater(full, known, s.clock, now);
        if now < WINDOW {
          RemembersLast(full, known, s.clock, now);
        }
    }
  }

  /** Over every run of non-decreasing times, whenever it starts: the table stays bounded and
      distinct, agrees with what it accounts for, and accounts for every acceptance since the last
      eviction but early ones. */
  lemma {:induction false} RunTracks(ops: seq<Op>)
    requires InOrder(ops)
    ensures var s := Run(ops);
            && Tracks(s.records, s.known, s.clock) && RemembersAll(s)
            && (ops != [] ==> s.clock == ops[|ops| - 1].now)
  {
    if ops != [] {
      RunTracks(ops[..|ops| - 1]);
      StepKeepsTracks(Run(ops[..|ops| - 1]), ops[|ops| - 1]);
      StepRemembers(Run(ops[..|ops| - 1]), ops[|ops| - 1]);
    }
  }

  /** Any eleven consecutive acceptances of a process since its last eviction, the first of them past
      the first window, span at least one window. */
  lemma RunIsSpaced(ops: seq<Op>, pid: nat, i: nat)
    requires InOrder(ops)
    ensures var times := Accepted(Run(ops).history, pid);
            i + MAX_REQUESTS < |times| && times[i] >= WINDOW ==> times[i] + WINDOW <= times[i + MAX_REQUESTS]
  {
    RunTracks(ops);
    var s := Run(ops);
    var full, known := Accepted(s.history, pid), Accepted(s.known, pid);
    assert Remembers(full, known, s.clock) && Faithful(s.known, s.records, s.clock, pid);
    var k := |full| - |known|;
    if i + MAX_REQUESTS < |full| && full[i] >= WINDOW {
      assert k <= i;
      assert known[i - k] == full[i] && known[i - k + MAX_REQUESTS] == full[i + MAX_REQUESTS];
    }
  }

  lemma DroppedIsEarly(full: seq<nat>, known: seq<nat>, clock: nat)
    requires Remembers(full, known, clock)
    ensures |known| < |full| ==> exists i :: 0 <= i < |full| && full[i] < WINDOW
  {
    if |known| < |full| {
      assert full[0] < WINDOW;
    }
  }

  lemma DroppedCount(full: seq<nat>, known: seq<nat>, clock: nat, now: nat)
    requires Remembers(full, known, clock)
    ensures InWindow(full, now) == InWindow(Dropped(full, known), now) + InWindow(known, now)
    ensures now >= 2 * WINDOW ==> InWindow(Dropped(full, known), now) == 0
  {
    var dropped := Dropped(full, known);
    assert full == dropped + known;
    InWindowAppend(dropped, known, now);
    if now >= 2 * WINDOW {
      NoneInWindow(dropped, now);
    }
  }

  // --- The same, told from the operations.

  /** Acceptances past the first window. */
  function Late(times: seq<nat>): seq<nat> {
    if times == [] then []
    else
      var k := |times| - 1;
      Late(times[..k]) + (if times[k] >= WINDOW then [times[k]] else [])
  }

  /** The last acceptance within the first window, if there is one. */
  function LastEarly(times: seq<nat>): seq<nat> {
    if times == [] then []
    else
      var k := |times| - 1;
      if times[k] < WINDOW then [times[k]] else LastEarly(times[..k])
  }

  predicate EarlyPrune(op: Op) {
    op.PruneIdle? && op.now < WINDOW
  }

  /** The process made a request within the first window and no pruning followed it there. */
  predicate Unpruned(ops: seq<Op>, pid: nat) {
    exists i :: 0 <= i < |ops| && ops[i].Request? && ops[i].pid == pid && ops[i].now < WINDOW
                && forall j :: i < j < |ops| ==> !EarlyPrune(ops[j])
  }

  /** Of all the acceptances since the last eviction, those that decide: the late ones, and the last
      early one unless it was pruned. */
  function Counting(full: seq<nat>, unpruned: bool): seq<nat> {
    (if unpruned then LastEarly(full) else []) + Late(full)
  }

  lemma UnprunedStep(ops: seq<Op>, op: Op, pid: nat)
    ensures Unpruned(ops + [op], pid)
            <==> (op.Request? && op.pid == pid && op.now < WINDOW) || (!EarlyPrune(op) && Unpruned(ops, pid))
  {
    var all := ops + [op];
    assert all[|ops|] == op && forall i :: 0 <= i < |ops| ==> all[i] == ops[i];
  }

  lemma {:induction false} NoneLate(times: seq<nat>, clock: nat)
    requires Ordered(times, clock) && clock < WINDOW
    ensures Late(times) == []
  {
    if times != [] {
      NoneLate(times[..|times| - 1], clock);
    }
  }

  lemma CountingMore(full: seq<nat>, now: nat, unpruned: bool)
    ensures now >= WINDOW ==> Counting(full + [now], unpruned) == Counting(full, unpruned) + [now]
    ensures now < WINDOW ==> LastEarly(full + [now]) == [now] && Late(full + [now]) == Late(full)
  {
    assert (full + [now])[..|full|] == full && Late(full) + [] == Late(full);
  }

  lemma CountingStep(s: State, op: Op, pid: nat, unpruned: bool, after: bool)
    requires Tracks(s.records, s.known, s.clock) && s.clock <= op.now && Ordered(Accepted(s.history, pid), s.clock)
    requires Accepted(s.known, pid) == Counting(Accepted(s.history, pid), unpruned)
    requires after <==> (op.Request? && op.pid == pid && op.now < WINDOW) || (!EarlyPrune(op) && unpruned)
    ensures Accepted(Step(s, op).known, pid) == Counting(Accepted(Step(s, op).history, pid), after)
  {
    var full := Accepted(s.history, pid);
    CountingMore(full, op.now, unpruned);
    if op.now < WINDOW {
      NoneLate(full, s.clock);
    }
    if op.Request? {
      HistoryOf(s, op.pid, op.now, pid);
      KnownOf(s, op.pid, op.now, pid);
      if op.now < WINDOW {
        EarlyCheckAccepts(s.records, s.clock, op.pid, op.now);
      }
    }
  }

  lemma RunStep(ops: seq<Op>, op: Op)
    ensures Run(ops + [op]) == Step(Run(ops), op)
  {
    assert (ops + [op])[..|ops|] == ops;
  }

  lemma KnownAfter(ops: seq<Op>, op: Op, pid: nat)
    requires InOrder(ops + [op])
    requires Accepted(Run(ops).known, pid) == Counting(Accepted(Run(ops).history, pid), Unpruned(ops, pid))
    ensures var all := ops + [op];
            Accepted(Run(all).known, pid) == Counting(Accepted(Run(all).history, pid), Unpruned(all, pid))
  {
    var s, all := Run(ops), ops + [op];
    assert all[|ops|] == op && forall i :: 0 <= i < |ops| ==> all[i] == ops[i];
    RunTracks(ops);
    assert Remembers(Accepted(s.history, pid), Accepted(s.known, pid), s.clock);
    UnprunedStep(ops, op, pid);
    CountingStep(s, op, pid, Unpruned(ops, pid), Unpruned(all, pid));
    RunStep(ops, op);
  }

  /** What the limiter accounts for after a run, from the run alone. */
  lemma {:induction false} KnownFromRun(ops: seq<Op>, pid: nat)
    requires InOrder(ops)
    ensures Accepted(Run(ops).known, pid) == Counting(Accepted(Run(ops).history, pid), Unpruned(ops, pid))
  {
    if ops != [] {
      var before, op := ops[..|ops| - 1], ops[|ops| - 1];
      assert before + [op] == ops;
      KnownFromRun(before, pid);
      KnownAfter(before, op, pid);
    }
  }

  /** The decision, exactly, after any run of non-decreasing times. Within one window of the origin
      every request is accepted. From then on the late acceptances count, and of the early ones the
      last unless it was pruned; from twice the window on, the decision is that of the full history. */
  lemma RunDecides(ops: seq<Op>, pid: nat, now: nat)
    requires InOrder(ops + [Request(pid, now)])
    ensures var full := Accepted(Run(ops).history, pid);
            var accepted := Check(Run(ops).records, pid, now).accepted;
            && (now < WINDOW ==> accepted)
            && (now >= WINDOW ==> (accepted <==> InWindow(Counting(full, Unpruned(ops, pid)), now) < MAX_REQUESTS))
            && (now >= 2 * WINDOW ==> (accepted <==> InWindow(full, now) < MAX_REQUESTS))
            && InWindow(Counting(full, Unpruned(ops, pid)), now) <= InWindow(full, now)
  {
    var all := ops + [Request(pid, now)];
    assert forall i :: 0 <= i < |ops| ==> all[i] == ops[i];
    assert all[|ops|] == Request(pid, now);
    RunTracks(ops);
    KnownFromRun(ops, pid);
    var s := Run(ops);
    var full, known := Accepted(s.history, pid), Accepted(s.known, pid);
    assert Remembers(full, known, s.clock);
    RemembersLater(full, known, s.clock, now);
    DroppedCount(full, known, now, now);
    if now < WINDOW {
      EarlyCheckAccepts(s.records, s.clock, pid, now);
    } else {
      CheckDecides(s, pid, now);
    }
  }

  /** The table decides as the history does if and only if the history accepts, or the first window
      is over and the late acceptances, with the last early one unless it was pruned, suffice to
      refuse. */
  lemma DecisionExact(ops: seq<Op>, pid: nat, now: nat)
    requires InOrder(ops + [Request(pid, now)])
    ensures var full := Accepted(Run(ops).history, pid);
            (Check(Run(ops).records, pid, now).accepted <==> InWindow(full, now) < MAX_REQUESTS)
            <==> InWindow(full, now) < MAX_REQUESTS
                 || (now >= WINDOW && InWindow(Counting(full, Unpruned(ops, pid)), now) >= MAX_REQUESTS)
  {
    RunDecides(ops, pid, now);
  }

  /** When every request comes after the first window nothing is dropped, and every request is
      decided by the full history. */
  lemma TimelyDecides(ops: seq<Op>, pid: nat, now: nat)
    requires Timely(ops + [Request(pid, now)])
    ensures Accepted(Run(ops).known, pid) == Accepted(Run(ops).history, pid)
    ensures Check(Run(ops).records, pid, now).accepted
            <==> InWindow(Accepted(Run(ops).history, pid), now) < MAX_REQUESTS
  {
    var all := ops + [Request(pid, now)];
    assert all[..|ops|] == ops && all[|ops|] == Request(pid, now);
    forall i | 0 <= i < |ops| ensures ops[i].now >= WINDOW {
      assert all[i] == ops[i];
    }
    assert forall i :: 0 <= i < |ops| ==> all[i] == ops[i];
    RunTracks(ops);
    assert Remembers(Accepted(Run(ops).history, pid), Accepted(Run(ops).known, pid), Run(ops).clock);
    RemembersLater(Accepted(Run(ops).history, pid), Accepted(Run(ops).known, pid), Run(ops).clock, now);
    CheckDecides(Run(ops), pid, now);
    HistoryIsLate(ops, pid);
    DroppedIsEarly(Accepted(Run(ops).history, pid), Accepted(Run(ops).known, pid), now);
  }

  predicate AllLate(times: seq<nat>) {
    forall i :: 0 <= i < |times| ==> times[i] >= WINDOW
  }

  lemma StepAdds(s: State, op: Op, pid: nat)
    ensures var old_, new_ := Accepted(s.history, pid), Accepted(Step(s, op).history, pid);
            new_ == old_ || new_ == old_ + [op.now] || new_ == []
  {
    if op.Request? {
      HistoryOf(s, op.pid, op.now, pid);
    }
  }

  lemma {:induction false} HistoryIsLate(ops: seq<Op>, pid: nat)
    requires forall i :: 0 <= i < |ops| ==> ops[i].now >= WINDOW
    ensures AllLate(Accepted(Run(ops).history, pid))
  {
    if ops != [] {
      var before, op := ops[..|ops| - 1], ops[|ops| - 1];
      assert op.now >= WINDOW && forall i :: 0 <= i < |before| ==> before[i] == ops[i];
      HistoryIsLate(before, pid);
      StepAdds(Run(before), op, pid);
    }
  }

  /** A caller's window is forgotten only while the whole table was seen within that window. */
  lemma EvictionNeedsPressure(s: State, pid: nat, now: nat)
    requires Tracks(s.records, s.known, s.clock) && Evicts(s.records, pid)
    requires var victim := s.records[OldestIndex(s.records)].pid;
             InWindow(Accepted(s.known, victim), now) > 0 && s.clock <= now
    ensures |s.records| == MAX_TRACKED
    ensures forall i :: 0 <= i < |s.records| ==> s.records[i].lastSeen + WINDOW > now
  {
    var k := OldestIndex(s.records);
    var victim := s.records[k];
    StampsAt(s.records, k);
    assert Faithful(s.known, s.records, s.clock, victim.pid);
    CoversCount(Accepted(s.known, victim.pid), victim.stamps, s.clock, now);
    if victim.lastSeen + WINDOW <= now {
      NoneInWindow(victim.stamps, now);
    }
  }

  // ---------------------------------------------------------------------------
  // Who is tracked, and who has to go, told from the operations.

  /** The time of the last request of a process, accepted or refused. */
  function LastRequest(ops: seq<Op>, pid: nat): Option<nat> {
    if ops == [] then None
    else
      var op := ops[|ops| - 1];
      if op.Request? && op.pid == pid then Some(op.now) else LastRequest(ops[..|ops| - 1], pid)
  }

  function Pids(rs: seq<PidRecord>): set<nat> {
    set i | 0 <= i < |rs| :: rs[i].pid
  }

  /** Every record carries the time of its process's last request. */
  predicate SeenLast(ops: seq<Op>, rs: seq<PidRecord>) {
    forall i :: 0 <= i < |rs| ==> LastRequest(ops, rs[i].pid) == Some(rs[i].lastSeen)
  }

  lemma LastRequestStep(ops: seq<Op>, op: Op, pid: nat)
    ensures LastRequest(ops + [op], pid)
            == if op.Request? && op.pid == pid then Some(op.now) else LastRequest(ops, pid)
  {
    assert (ops + [op])[..|ops|] == ops;
  }

  /** A record after a request is the caller's, seen now, or was there before, unchanged. */
  lemma RequestOrigin(rs: seq<PidRecord>, pid: nat, now: nat, i: nat)
    requires Distinct(rs) && i < |Check(rs, pid, now).records|
    ensures var r := Check(rs, pid, now).records[i];
            if r.pid == pid then r.lastSeen == now else r in rs
  {
    var full := WithRecord(rs, pid, now);
    WithRecordKeeps(rs, pid, now, pid);
    var k := Position(full, pid);
    StampsAt(full, k);
    if i != k {
      assert full[i].pid != pid;
    }
  }

  lemma RequestSeen(ops: seq<Op>, rs: seq<PidRecord>, pid: nat, now: nat)
    requires Distinct(rs) && SeenLast(ops, rs)
    ensures SeenLast(ops + [Request(pid, now)], Check(rs, pid, now).records)
  {
    var r := Check(rs, pid, now).records;
    forall i | 0 <= i < |r| ensures LastRequest(ops + [Request(pid, now)], r[i].pid) == Some(r[i].lastSeen) {
      RequestOrigin(rs, pid, now, i);
      LastRequestStep(ops, Request(pid, now), r[i].pid);
    }
  }

  lemma PruneSeen(ops: seq<Op>, rs: seq<PidRecord>, now: nat)
    requires SeenLast(ops, rs)
    ensures SeenLast(ops + [PruneIdle(now)], Prune(rs, now))
  {
    var r := Prune(rs, now);
    forall i | 0 <= i < |r| ensures LastRequest(ops + [PruneIdle(now)], r[i].pid) == Some(r[i].lastSeen) {
      var j := PruneOrigin(rs, now, i);
      LastRequestStep(ops, PruneIdle(now), r[i].pid);
    }
  }

  /** Over every run of non-decreasing times each record was last seen when its process last made a
      request, whether that was accepted or refused. */
  lemma {:induction false} LastSeenIsLastRequest(ops: seq<Op>)
    requires InOrder(ops)
    ensures SeenLast(ops, Run(ops).records)
  {
    if ops != [] {
      var before, op := ops[..|ops| - 1], ops[|ops| - 1];
      LastSeenIsLastRequest(before);
      RunTracks(before);
      assert ops == before + [op];
      match op
      case Request(pid, now) => RequestSeen(before, Run(before).records, pid, now);
      case PruneIdle(now) => PruneSeen(before, Run(before).records, now);
    }
  }

  lemma {:induction false} PositionFound(rs: seq<PidRecord>, pid: nat)
    ensures pid in Pids(rs) <==> Position(rs, pid) < |rs|
  {
  }

  lemma WithRecordPids(rs: seq<PidRecord>, pid: nat, now: nat)
    requires Distinct(rs)
    ensures Pids(WithRecord(rs, pid, now))
            == Pids(rs) - (if Evicts(rs, pid) then {rs[OldestIndex(rs)].pid} else {}) + {pid}
  {
    PositionFound(rs, pid);
    if Position(rs, pid) == |rs| {
      if |rs| >= MAX_TRACKED {
        RemovePids(rs, OldestIndex(rs));
        AppendPids(RemoveAt(rs, OldestIndex(rs)), PidRecord(pid, [], now));
      } else {
        AppendPids(rs, PidRecord(pid, [], now));
      }
    }
  }

  lemma RemovePids(rs: seq<PidRecord>, k: nat)
    requires Distinct(rs) && k < |rs|
    ensures Pids(RemoveAt(rs, k)) == Pids(rs) - {rs[k].pid}
  {
    var r := RemoveAt(rs, k);
    RemoveDistinct(rs, k);
    assert forall i :: 0 <= i < |r| ==> r[i] == rs[if i < k then i else i + 1];
    forall q | q in Pids(rs) && q != rs[k].pid ensures q in Pids(r) {
      var i :| 0 <= i < |rs| && rs[i].pid == q;
      assert r[if i < k then i else i - 1] == rs[i];
    }
  }

  lemma AppendPids(rs: seq<PidRecord>, rec: PidRecord)
    ensures Pids(rs + [rec]) == Pids(rs) + {rec.pid}
  {
    var r := rs + [rec];
    assert r[|rs|] == rec && forall i :: 0 <= i < |rs| ==> r[i] == rs[i];
  }

  lemma UpdatePids(rs: seq<PidRecord>, k: nat, rec: PidRecord)
    requires k < |rs| && rs[k].pid == rec.pid
    ensures Pids(rs[k := rec]) == Pids(rs)
  {
    var r := rs[k := rec];
    assert forall i :: 0 <= i < |rs| ==> r[i].pid == rs[i].pid;
  }

  /** The process whose last request is oldest, the smaller one of two that asked at one instant. */
  predicate LeastRecent(ops: seq<Op>, tracked: set<nat>, victim: nat) {
    && victim in tracked
    && forall q :: q in tracked ==>
         && LastRequest(ops, victim).Some? && LastRequest(ops, q).Some?
         && (LastRequest(ops, victim).value < LastRequest(ops, q).value
             || (LastRequest(ops, victim).value == LastRequest(ops, q).value && victim <= q))
  }

  lemma OldestIsLeastRecent(ops: seq<Op>, rs: seq<PidRecord>)
    requires SeenLast(ops, rs) && rs != []
    ensures LeastRecent(ops, Pids(rs), rs[OldestIndex(rs)].pid)
  {
    var k := OldestIndex(rs);
    forall q | q in Pids(rs)
      ensures LastRequest(ops, rs[k].pid).Some? && LastRequest(ops, q).Some?
      ensures LastRequest(ops, rs[k].pid).value < LastRequest(ops, q).value
              || (LastRequest(ops, rs[k].pid).value == LastRequest(ops, q).value && rs[k].pid <= q)
    {
      var i :| 0 <= i < |rs| && rs[i].pid == q;
      assert OlderOrEqual(rs[k], rs[i]);
    }
  }

  lemma {:induction false} PidCount(rs: seq<PidRecord>)
    requires Distinct(rs)
    ensures |Pids(rs)| == |rs|
  {
    if rs != [] {
      var k := |rs| - 1;
      PidCount(rs[..k]);
      AppendPids(rs[..k], rs[k]);
      assert rs[..k] + [rs[k]] == rs;
      assert rs[k].pid !in Pids(rs[..k]);
    }
  }

  /** After any run a request makes its process tracked and costs another its place exactly when the
      table was full without it; that one is the tracked process whose last request, accepted or
      refused, is oldest, ties going to the smaller id. */
  lemma EvictionExact(ops: seq<Op>, pid: nat, now: nat) returns (victim: Option<nat>)
    requires InOrder(ops)
    ensures var tracked := Pids(Run(ops).records);
            && (victim.Some? <==> |tracked| == MAX_TRACKED && pid !in tracked)
            && (victim.Some? ==> LeastRecent(ops, tracked, victim.value))
            && Pids(Run(ops + [Request(pid, now)]).records)
               == tracked - (if victim.Some? then {victim.value} else {}) + {pid}
  {
    var rs := Run(ops).records;
    RunTracks(ops);
    LastSeenIsLastRequest(ops);
    PidCount(rs);
    PositionFound(rs, pid);
    WithRecordPids(rs, pid, now);
    var full := WithRecord(rs, pid, now);
    UpdatePids(full, Position(full, pid), Check(rs, pid, now).records[Position(full, pid)]);
    RunStep(ops, Request(pid, now));
    victim := None;
    if Evicts(rs, pid) {
      OldestIsLeastRecent(ops, rs);
      victim := Some(rs[OldestIndex(rs)].pid);
    }
  }

  lemma {:induction false} PrunePids(rs: seq<PidRecord>, now: nat, q: nat)
    requires Distinct(rs)
    ensures q in Pids(Prune(rs, now)) <==> Retain(Stamps(rs, q), Cutoff(now)) != []
  {
    PruneKeeps(rs, now, q);
    PruneDistinct(rs, now);
    PruneLeavesStamps(rs, now);
    var r := Prune(rs, now);
    PositionFound(r, q);
    if Position(r, q) < |r| {
      assert r[Position(r, q)].stamps != [];
    }
  }

  lemma PruneLeavesStamps(rs: seq<PidRecord>, now: nat)
    ensures forall i :: 0 <= i < |Prune(rs, now)| ==> Prune(rs, now)[i].stamps != []
  {
    if rs != [] {
      PruneLeavesStamps(rs[1..], now);
    }
  }

  lemma StateAfter(ops: seq<Op>, now: nat, q: nat)
    requires InOrder(ops + [PruneIdle(now)])
    ensures var s := Run(ops);
            && s.clock <= now && WellKept(s.records, s.clock) && Faithful(s.known, s.records, s.clock, q)
            && Accepted(s.known, q) == Counting(Accepted(s.history, q), Unpruned(ops, q))
  {
    var all := ops + [PruneIdle(now)];
    assert all[|ops|] == PruneIdle(now) && forall i :: 0 <= i < |ops| ==> all[i] == ops[i];
    RunTracks(ops);
    KnownFromRun(ops, q);
  }

  lemma PruneCounts(rs: seq<PidRecord>, times: seq<nat>, clock: nat, now: nat, q: nat)
    requires clock <= now && WellKept(rs, clock) && Covers(times, Stamps(rs, q), clock)
    ensures q in Pids(Prune(rs, now)) <==> now >= WINDOW && InWindow(times, now) > 0
  {
    var stamps := Stamps(rs, q);
    PrunePids(rs, now, q);
    StampsBound(rs, clock, q);
    if now < WINDOW {
      RetainNone(stamps, now);
    } else {
      RetainIsWindow(stamps, now);
      CoversCount(times, stamps, clock, now);
    }
  }

  /** After any run, pruning leaves exactly the processes with a counting acceptance in the window. */
  lemma PrunedExactly(ops: seq<Op>, now: nat, q: nat)
    requires InOrder(ops + [PruneIdle(now)])
    ensures q in Pids(Run(ops + [PruneIdle(now)]).records)
            <==> now >= WINDOW && InWindow(Counting(Accepted(Run(ops).history, q), Unpruned(ops, q)), now) > 0
  {
    var s := Run(ops);
    StateAfter(ops, now, q);
    RunStep(ops, PruneIdle(now));
    PruneCounts(s.records, Accepted(s.known, q), s.clock, now, q);
  }

  // ---------------------------------------------------------------------------
  // Early bursts.

  function Repeat(pid: nat, now: nat, n: nat): seq<Op> {
    seq(n, _ => Request(pid, now))
  }

  /** `n` requests of `pid` at `now` were all accepted, and all lie in the present window. */
  predicate AllAccepted(s: State, pid: nat, now: nat, n: nat) {
    && WellKept(s.records, now) && |s.records| <= 1
    && (|s.records| == 1 ==> s.records[0].pid == pid)
    && |Accepted(s.history, pid)| == n && InWindow(Accepted(s.history, pid), now) == n
  }

  lemma EarlyStep(s: State, pid: nat, now: nat, n: nat)
    requires AllAccepted(s, pid, now, n) && now < WINDOW
    ensures AllAccepted(Step(s, Request(pid, now)), pid, now, n + 1)
  {
    EarlyCheckAccepts(s.records, now, pid, now);
    HistoryOf(s, pid, now, pid);
    InWindowAppend(Accepted(s.history, pid), [now], now);
  }

  lemma RepeatOnceMore(pid: nat, now: nat, n: nat)
    requires n > 0
    ensures Run(Repeat(pid, now, n)) == Step(Run(Repeat(pid, now, n - 1)), Request(pid, now))
  {
    var ops := Repeat(pid, now, n);
    assert ops[..n - 1] == Repeat(pid, now, n - 1) && ops[n - 1] == Request(pid, now);
  }

  /** So any number of requests made at one early instant is accepted in full. */
  lemma {:induction false} EarlyBurstAccepted(pid: nat, now: nat, n: nat)
    requires now < WINDOW
    ensures AllAccepted(Run(Repeat(pid, now, n)), pid, now, n)
  {
    if n > 0 {
      EarlyBurstAccepted(pid, now, n - 1);
      EarlyStep(Run(Repeat(pid, now, n - 1)), pid, now, n - 1);
      RepeatOnceMore(pid, now, n);
    }
  }

  lemma RepeatInOrder(pid: nat, early: nat, n: nat, now: nat)
    requires early <= now
    ensures InOrder(Repeat(pid, early, n) + [Request(pid, now)])
  {
  }

  /** And the burst is not held against its process even after the first window, as long as it lies
      in the present one: of all its requests only the last is still counted. */
  lemma EarlyBurstOutlives(pid: nat, early: nat, n: nat, now: nat)
    requires early < WINDOW <= now < early + WINDOW && n >= MAX_REQUESTS
    ensures var s := Run(Repeat(pid, early, n));
            InWindow(Accepted(s.history, pid), now) == n && Check(s.records, pid, now).accepted
  {
    var s := Run(Repeat(pid, early, n));
    EarlyBurstAccepted(pid, early, n);
    RepeatInOrder(pid, early, n, now);
    RunDecides(Repeat(pid, early, n), pid, now);
    BurstTimes(pid, early, n);
    var full := Accepted(s.history, pid);
    AllInWindow(full, now);
    NoneLate(full, early);
    InWindowSize(LastEarly(full), now);
  }

  lemma {:induction false} InWindowSize(times: seq<nat>, now: nat)
    ensures InWindow(times, now) <= |times|
  {
    if times != [] {
      InWindowSize(times[1..], now);
    }
  }

  lemma {:induction false} BurstTimes(pid: nat, early: nat, n: nat)
    ensures var times := Accepted(Run(Repeat(pid, early, n)).history, pid);
            forall i :: 0 <= i < |times| ==> times[i] == early
  {
    if n > 0 {
      BurstTimes(pid, early, n - 1);
      RepeatOnceMore(pid, early, n);
      HistoryOf(Run(Repeat(pid, early, n - 1)), pid, early, pid);
    }
  }

  /** Half a second after the origin ten requests, and at one and two tenths an eleventh: accepted,
      with ten others in its window. */
  lemma ElevenInOneSecond()
    ensures var s := Run(Repeat(1, 500_000_000, 10));
            InWindow(Accepted(s.history, 1), 1_200_000_000) == 10 && Check(s.records, 1, 1_200_000_000).accepted
  {
    EarlyBurstOutlives(1, 500_000_000, 10, 1_200_000_000);
  }
}
