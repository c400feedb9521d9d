/** The Windows timer-resolution adapter over an environment that may answer anything. */
module TimerPlatform {
  import opened Options
  import opened Text

  const TOLERANCE: nat := 100
  const STATUS_SUCCESS: int := 0

  /** An interval in units of 100 nanoseconds. */
  type Hns = nat

  datatype Result<+T> = Ok(value: T) | Err(error: TimerError)

  datatype TimerError =
    | InvalidInterval
    | QueryFailed(rawStatus: int)
    | RequestFailed(rawStatus: int)
    | ReleaseFailed(rawStatus: int)
    | PostconditionUnverified(rawStatus: int, reportedCurrent: Hns)

  datatype TimerBounds = TimerBounds(minimumInterval: Hns, maximumInterval: Hns)
  datatype TimerQuery = TimerQuery(bounds: TimerBounds, reportedCurrent: Hns, rawStatus: int)
  datatype TimerObservation = TimerObservation(requested: Hns, reportedCurrent: Hns, rawStatus: int)
  datatype ProbeOutcome = Restored | ExternalTiming
  datatype KernelSettleProbe = KernelSettleProbe(outcome: ProbeOutcome, before: Hns, after: Hns)

  // ---------------------------------------------------------------------------
  // Pure checks.

  /** The native labels may be reversed: only the numeric order counts. */
  function NumericInterval(b: TimerBounds): (Hns, Hns) {
    if b.minimumInterval <= b.maximumInterval then (b.minimumInterval, b.maximumInterval)
    else (b.maximumInterval, b.minimumInterval)
  }

  predicate ValidInterval(b: TimerBounds, interval: Hns) {
    var (lower, upper) := NumericInterval(b);
    !(interval == 0 || interval > U32_MAX || interval < lower || interval > upper)
  }

  function ResolveRequest(b: TimerBounds, requested: Hns): (r: Result<Hns>)
    ensures r.Ok? ==> 0 < r.value <= U32_MAX && ValidInterval(b, r.value)
    ensures r.Ok? && requested != 0 ==> r.value == requested
    ensures r.Ok? && requested == 0 ==>
              forall i :: ValidInterval(b, i) ==> r.value <= i
    ensures r.Ok? <==> ValidInterval(b, if requested == 0 then NumericInterval(b).0 else requested)
  {
    var (lower, upper) := NumericInterval(b);
    if requested == 0 && (lower == 0 || lower > U32_MAX) then Err(InvalidInterval)
    else
      var selected := if requested == 0 then lower else requested;
      if ValidInterval(b, selected) then Ok(selected) else Err(InvalidInterval)
  }

  predicate Satisfies(reported: Hns, requested: Hns) {
    reported <= requested || reported - requested <= TOLERANCE
  }

  function MedianOfThree(a: nat, b: nat, c: nat): nat {
    if a > b then (if b > c then b else if a > c then c else a)
    else if a > c then a
    else if b > c then c
    else b
  }

  function Count(p: bool): nat {
    if p then 1 else 0
  }

  /** The median is one of the samples, with no more than one sample strictly on either side. */
  lemma MedianIsMiddle(a: nat, b: nat, c: nat)
    ensures var m := MedianOfThree(a, b, c);
            && (m == a || m == b || m == c)
            && Count(a < m) + Count(b < m) + Count(c < m) <= 1
            && Count(a > m) + Count(b > m) + Count(c > m) <= 1
  {
  }

  /** The median passes the tolerance exactly when at least two of the three samples do: one outlier
      can neither cause nor hide a failure. */
  lemma MedianIsMajority(a: nat, b: nat, c: nat, requested: Hns)
    ensures Satisfies(MedianOfThree(a, b, c), requested) <==>
              Count(Satisfies(a, requested)) + Count(Satisfies(b, requested)) + Count(Satisfies(c, requested)) >= 2
  {
  }

  // ---------------------------------------------------------------------------
  // The kernel, seen from this process.

  type Word = n: nat | n <= U32_MAX

  /** The answer to one native call. */
  datatype Reply = Reply(status: int, minimum: Word, maximum: Word, current: Word)

  datatype NativeCall = AskQuery | AskSet(desired: Hns, set_: bool)

  /** Whether this process holds a resolution request, and the calls it made. The answers to come are
      fixed beforehand, but arbitrary. */
  class Kernel {
    const replies: nat -> Reply
    var asked: seq<NativeCall>
    var held: bool
    ghost var setsWhileHeld: nat
    ghost var releases: nat

    constructor (replies: nat -> Reply)
      ensures this.replies == replies && asked == []
      ensures !held && setsWhileHeld == 0 && releases == 0
    {
      this.replies, asked := replies, [];
      held, setsWhileHeld, releases := false, 0, 0;
    }

    method NtQueryTimerResolution() returns (reply: Reply)
      modifies this`asked
      ensures reply == replies(|old(asked)|) && asked == old(asked) + [AskQuery]
    {
      reply := replies(|asked|);
      asked := asked + [AskQuery];
    }

    /** A successful call sets or clears the request; a failed one leaves it as it was. */
    method NtSetTimerResolution(desired: Hns, set_: bool) returns (reply: Reply)
      requires desired <= U32_MAX
      modifies this
      ensures reply == replies(|old(asked)|) && asked == old(asked) + [AskSet(desired, set_)]
      ensures held == if reply.status == STATUS_SUCCESS then set_ else old(held)
      ensures setsWhileHeld == old(setsWhileHeld) + Count(set_ && old(held))
      ensures releases == old(releases) + Count(!set_)
    {
      reply := replies(|asked|);
      asked := asked + [AskSet(desired, set_)];
      if set_ && held {
        setsWhileHeld := setsWhileHeld + 1;
      }
      if !set_ {
        releases := releases + 1;
      }
      if reply.status == STATUS_SUCCESS {
        held := set_;
      }
    }
  }

  // ---------------------------------------------------------------------------
  // What the replies amount to.

  function BoundsOf(r: Reply): TimerBounds {
    TimerBounds(r.minimum, r.maximum)
  }

  function Answer(r: Reply): Result<TimerQuery> {
    if r.status == STATUS_SUCCESS then Ok(TimerQuery(BoundsOf(r), r.current, STATUS_SUCCESS))
    else Err(QueryFailed(r.status))
  }

  function Resolution(r: Reply, wanted: Hns): Result<Hns> {
    if r.status == STATUS_SUCCESS then ResolveRequest(BoundsOf(r), wanted) else Err(QueryFailed(r.status))
  }

  /** The preflight's query succeeds and the interval lies within the bounds it reports. */
  predicate Admits(r: Reply, interval: Hns) {
    r.status == STATUS_SUCCESS && ValidInterval(BoundsOf(r), interval)
  }

  function Reading(r: Reply): Option<Hns> {
    if r.status == STATUS_SUCCESS then Some(r.current) else None
  }

  predicate Good(reading: Option<Hns>, interval: Hns) {
    reading.Some? && Satisfies(reading.value, interval)
  }

  /** Two of three readings are good, or one of exactly two. */
  predicate Passes(interval: Hns, a: Option<Hns>, b: Option<Hns>, c: Option<Hns>) {
    var read := Count(a.Some?) + Count(b.Some?) + Count(c.Some?);
    var good := Count(Good(a, interval)) + Count(Good(b, interval)) + Count(Good(c, interval));
    (read == 3 && good >= 2) || (read == 2 && good >= 1)
  }

  /** The least of the good readings. */
  function LeastGood(interval: Hns, readings: seq<Option<Hns>>): Option<Hns> {
    if readings == [] then None
    else
      var rest := LeastGood(interval, readings[1..]);
      if Good(readings[0], interval) && (rest.None? || readings[0].value <= rest.value) then readings[0] else rest
  }

  /** The verdict of three readings: the median of all, or of two the least good one. */
  function Sampled(interval: Hns, a: Option<Hns>, b: Option<Hns>, c: Option<Hns>): Option<Hns> {
    var read := Count(a.Some?) + Count(b.Some?) + Count(c.Some?);
    if read < 2 then None
    else if read == 3 then Some(MedianOfThree(a.value, b.value, c.value))
    else LeastGood(interval, [a, b, c])
  }

  /** A request is kept exactly when two of three readings are good, or one of exactly two. */
  lemma SampledPasses(interval: Hns, a: Option<Hns>, b: Option<Hns>, c: Option<Hns>)
    ensures Good(Sampled(interval, a, b, c), interval) <==> Passes(interval, a, b, c)
    ensures Sampled(interval, a, b, c).Some? ==> Sampled(interval, a, b, c) in [a, b, c]
  {
    LeastOfThree(interval, a, b, c);
  }

  lemma LeastOfThree(interval: Hns, a: Option<Hns>, b: Option<Hns>, c: Option<Hns>)
    ensures LeastGood(interval, [a, b, c])
            == if Good(a, interval) && (!Good(b, interval) || a.value <= b.value)
                  && (!Good(c, interval) || a.value <= c.value) then a
               else if Good(b, interval) && (!Good(c, interval) || b.value <= c.value) then b
               else if Good(c, interval) then c else None
  {
    var none: seq<Option<Hns>> := [];
    assert [a, b, c][1..] == [b, c] && [b, c][1..] == [c] && [c][1..] == none;
    assert LeastGood(interval, [c]) == if Good(c, interval) then c else None;
  }

  /** What the three queries from call `n` on amount to. */
  function SampledAt(replies: nat -> Reply, n: nat, interval: Hns): Option<Hns> {
    Sampled(interval, Reading(replies(n)), Reading(replies(n + 1)), Reading(replies(n + 2)))
  }

  predicate PassesAt(replies: nat -> Reply, n: nat, interval: Hns) {
    Passes(interval, Reading(replies(n)), Reading(replies(n + 1)), Reading(replies(n + 2)))
  }

  lemma SampledAtPasses(replies: nat -> Reply, n: nat, interval: Hns)
    ensures PassesAt(replies, n, interval)
            <==> SampledAt(replies, n, interval).Some? && Satisfies(SampledAt(replies, n, interval).value, interval)
  {
    SampledPasses(interval, Reading(replies(n)), Reading(replies(n + 1)), Reading(replies(n + 2)));
  }

  /** A request made from call `n` on reaches the kernel and is set there. */
  predicate Sets(replies: nat -> Reply, n: nat, interval: Hns) {
    Admits(replies(n), interval) && replies(n + 1).status == STATUS_SUCCESS
  }

  predicate Grants(replies: nat -> Reply, n: nat, interval: Hns) {
    Sets(replies, n, interval) && PassesAt(replies, n + 2, interval)
  }

  /** What is reported of a request that was set: the verdict, or else the kernel's own answer. */
  function Reported(replies: nat -> Reply, n: nat, interval: Hns): Hns {
    var sampled := SampledAt(replies, n + 2, interval);
    if sampled.Some? then sampled.value else replies(n + 1).current
  }

  /** Why a request is not granted. */
  function Refusal(replies: nat -> Reply, n: nat, interval: Hns): TimerError {
    if replies(n).status != STATUS_SUCCESS then QueryFailed(replies(n).status)
    else if !Admits(replies(n), interval) then InvalidInterval
    else if replies(n + 1).status != STATUS_SUCCESS then RequestFailed(replies(n + 1).status)
    else PostconditionUnverified(STATUS_SUCCESS, Reported(replies, n, interval))
  }

  /** The native calls of a request: preflight, set, three samples, and the rollback. */
  function RequestCalls(replies: nat -> Reply, n: nat, interval: Hns): seq<NativeCall> {
    if !Admits(replies(n), interval) then [AskQuery]
    else
      var set_ := [AskQuery] + [AskSet(interval, true)];
      if !Sets(replies, n, interval) then set_
      else
        var sampled := set_ + [AskQuery, AskQuery, AskQuery];
        if Grants(replies, n, interval) then sampled else sampled + [AskSet(interval, false)]
  }

  /** The request is in force afterwards: granted, or set and not rolled back. */
  predicate StaysHeld(replies: nat -> Reply, n: nat, interval: Hns) {
    Sets(replies, n, interval) && (Grants(replies, n, interval) || replies(n + 5).status != STATUS_SUCCESS)
  }

  /** A settle probe queries, releases and queries again, and stops at the first call that fails. */
  function Probed(replies: nat -> Reply, n: nat): Result<KernelSettleProbe> {
    if replies(n).status != STATUS_SUCCESS then Err(QueryFailed(replies(n).status))
    else if replies(n + 1).status != STATUS_SUCCESS then Err(ReleaseFailed(replies(n + 1).status))
    else if replies(n + 2).status != STATUS_SUCCESS then Err(QueryFailed(replies(n + 2).status))
    else
      var before, after := replies(n).current, replies(n + 2).current;
      Ok(KernelSettleProbe(if after > before then Restored else ExternalTiming, before, after))
  }

  function ProbeCalls(replies: nat -> Reply, n: nat, interval: Hns): (calls: seq<NativeCall>)
    ensures 1 <= |calls| <= 3
  {
    if replies(n).status != STATUS_SUCCESS then [AskQuery]
    else if replies(n + 1).status != STATUS_SUCCESS then [AskQuery, AskSet(interval, false)]
    else [AskQuery, AskSet(interval, false), AskQuery]
  }

  // ---------------------------------------------------------------------------
  // The adapter.

  class WindowsTimerPlatform {
    const kernel: Kernel
    var requested: Option<Hns>

    constructor (kernel: Kernel)
      ensures this.kernel == kernel && requested == None
    {
      this.kernel := kernel;
      requested := None;
    }

    /** How many native calls have been made so far. */
    function Now(): nat
      reads kernel
    {
      |kernel.asked|
    }

    method Query(interval: Hns) returns (r: Result<TimerQuery>)
      modifies kernel`asked
      ensures r == Answer(kernel.replies(old(Now())))
      ensures kernel.asked == old(kernel.asked) + [AskQuery]
    {
      var reply := kernel.NtQueryTimerResolution();
      if reply.status != STATUS_SUCCESS {
        return Err(QueryFailed(reply.status));
      }
      return Ok(TimerQuery(TimerBounds(reply.minimum, reply.maximum), reply.current, STATUS_SUCCESS));
    }

    method Resolve(wanted: Hns) returns (r: Result<Hns>)
      modifies kernel`asked
      ensures r == Resolution(kernel.replies(old(Now())), wanted)
      ensures r.Ok? ==> 0 < r.value <= U32_MAX && (wanted != 0 ==> r.value == wanted)
      ensures kernel.asked == old(kernel.asked) + [AskQuery]
    {
      var query := Query(wanted);
      match query {
        case Err(error) => return Err(error);
        case Ok(q) => return ResolveRequest(q.bounds, wanted);
      }
    }

    method Preflight(interval: Hns) returns (r: Result<TimerQuery>)
      modifies kernel`asked
      ensures r.Ok? <==> Admits(kernel.replies(old(Now())), interval)
      ensures r.Ok? ==> r == Answer(kernel.replies(old(Now())))
      ensures r.Err? ==> r.error == Refusal(kernel.replies, old(Now()), interval)
      ensures kernel.asked == old(kernel.asked) + [AskQuery]
    {
      var query := Query(interval);
      if query.Ok? && !ValidInterval(query.value.bounds, interval) {
        return Err(InvalidInterval);
      }
      return query;
    }

    /** Three queries in a row. A single success is never trusted. */
    method SampleIntervalMedian(interval: Hns) returns (median: Option<Hns>)
      modifies kernel`asked
      ensures median == SampledAt(kernel.replies, old(Now()), interval)
      ensures kernel.asked == old(kernel.asked) + [AskQuery, AskQuery, AskQuery]
    {
      ghost var n := Now();
      ghost var readings := [Reading(kernel.replies(n)), Reading(kernel.replies(n + 1)), Reading(kernel.replies(n + 2))];
      var samples: seq<Hns> := [];
      for i := 0 to 3
        invariant samples == Taken(readings[..i])
        invariant kernel.asked == old(kernel.asked) + [AskQuery, AskQuery, AskQuery][..i]
      {
        assert readings[..i + 1][..i] == readings[..i];
        var query := Query(interval);
        if query.Ok? {
          samples := samples + [query.value.reportedCurrent];
        }
      }
      assert readings[..3] == readings;
      TakenOfThree(readings[0], readings[1], readings[2]);
    LeastOfThree(interval, readings[0], readings[1], readings[2]);
      if |samples| < 2 {
        median := None;
      } else if |samples| == 2 {
        var first, second := Satisfies(samples[0], interval), Satisfies(samples[1], interval);
        median := if first && !second then Some(samples[0])
                  else if !first && second then Some(samples[1])
                  else if first && second then Some(if samples[0] <= samples[1] then samples[0] else samples[1])
                  else None;
      } else {
        median := Some(MedianOfThree(samples[0], samples[1], samples[2]));
      }
    }

    /** A request, and what it leaves behind in the kernel, for whatever is replied. */
    method Request(interval: Hns) returns (r: Result<TimerObservation>)
      modifies this, kernel
      ensures r.Ok? <==> Grants(kernel.replies, old(Now()), interval)
      ensures r.Ok? ==>
        r.value == TimerObservation(interval, Reported(kernel.replies, old(Now()), interval), STATUS_SUCCESS)
        && Satisfies(r.value.reportedCurrent, interval)
      ensures r.Err? ==> r.error == Refusal(kernel.replies, old(Now()), interval)
      ensures kernel.asked == old(kernel.asked) + RequestCalls(kernel.replies, old(Now()), interval)
      ensures kernel.held == if Sets(kernel.replies, old(Now()), interval)
                             then StaysHeld(kernel.replies, old(Now()), interval) else old(kernel.held)
      ensures requested == if !Sets(kernel.replies, old(Now()), interval) then old(requested)
                           else if r.Ok? then Some(interval) else None
      ensures kernel.releases >= old(kernel.releases)
      ensures kernel.setsWhileHeld <= old(kernel.setsWhileHeld) + Count(old(kernel.held))
    {
      ghost var before, calls := kernel.asked, [AskQuery];
      var checked := Preflight(interval);
      if checked.Err? {
        return Err(checked.error);
      }
      var reply := kernel.NtSetTimerResolution(interval, true);
      Associate(before, calls, [AskSet(interval, true)]);
      calls := calls + [AskSet(interval, true)];
      if reply.status != STATUS_SUCCESS {
        return Err(RequestFailed(reply.status));
      }
      ghost var n := Now();
      var sampled := SampleIntervalMedian(interval);
      Associate(before, calls, [AskQuery, AskQuery, AskQuery]);
      calls := calls + [AskQuery, AskQuery, AskQuery];
      SampledAtPasses(kernel.replies, n, interval);
      var observation := TimerObservation(interval, if sampled.Some? then sampled.value else reply.current, reply.status);
      requested := Some(interval);
      if sampled.None? || !Satisfies(observation.reportedCurrent, interval) {
        var rollback := kernel.NtSetTimerResolution(interval, false);
        Associate(before, calls, [AskSet(interval, false)]);
        requested := None;
        return Err(PostconditionUnverified(reply.status, observation.reportedCurrent));
      }
      return Ok(observation);
    }

    method Release(interval: Hns) returns (r: Result<TimerObservation>)
      modifies this, kernel
      ensures r == if interval > U32_MAX then Err(InvalidInterval)
                   else if kernel.replies(old(Now())).status != STATUS_SUCCESS then
                     Err(ReleaseFailed(kernel.replies(old(Now())).status))
                   else Ok(TimerObservation(interval, kernel.replies(old(Now())).current, STATUS_SUCCESS))
      ensures r.Ok? ==> !kernel.held && requested == None
      ensures r.Err? ==> kernel.held == old(kernel.held) && requested == old(requested)
      ensures kernel.asked == old(kernel.asked) + if interval <= U32_MAX then [AskSet(interval, false)] else []
      ensures kernel.releases == old(kernel.releases) + Count(interval <= U32_MAX)
      ensures kernel.setsWhileHeld == old(kernel.setsWhileHeld)
    {
      if interval > U32_MAX {
        return Err(InvalidInterval);
      }
      var reply := kernel.NtSetTimerResolution(interval, false);
      if reply.status != STATUS_SUCCESS {
        return Err(ReleaseFailed(reply.status));
      }
      requested := None;
      return Ok(TimerObservation(interval, reply.current, reply.status));
    }

    method AttemptKernelSettleProbe(interval: Hns) returns (r: Result<KernelSettleProbe>)
      requires interval <= U32_MAX
      modifies this, kernel
      ensures r == Probed(kernel.replies, old(Now()))
      ensures kernel.asked == old(kernel.asked) + ProbeCalls(kernel.replies, old(Now()), interval)
      ensures kernel.held ==> old(kernel.held)
      ensures requested == if r.Ok? && r.value.outcome == Restored then None else old(requested)
      ensures kernel.setsWhileHeld == old(kernel.setsWhileHeld)
      ensures old(kernel.releases) <= kernel.releases <= old(kernel.releases) + 1
      ensures r.Ok? ==> (r.value.outcome == Restored <==> r.value.after > r.value.before)
    {
      var before := Query(interval);
      if before.Err? {
        return Err(before.error);
      }
      var reply := kernel.NtSetTimerResolution(interval, false);
      if reply.status != STATUS_SUCCESS {
        return Err(ReleaseFailed(reply.status));
      }
      var after := Query(interval);
      if after.Err? {
        return Err(after.error);
      }
      var b, a := before.value.reportedCurrent, after.value.reportedCurrent;
      if a > b {
        requested := None;
        return Ok(KernelSettleProbe(Restored, b, a));
      }
      return Ok(KernelSettleProbe(ExternalTiming, b, a));
    }
  }

  /** The successful readings in order. */
  function Taken(readings: seq<Option<Hns>>): seq<Hns> {
    if readings == [] then []
    else
      var k := |readings| - 1;
      Taken(readings[..k]) + (if readings[k].Some? then [readings[k].value] else [])
  }

  lemma TakenOfThree(a: Option<Hns>, b: Option<Hns>, c: Option<Hns>)
    ensures Taken([a, b, c]) == (if a.Some? then [a.value] else []) + (if b.Some? then [b.value] else [])
                                + (if c.Some? then [c.value] else [])
  {
    TakenStep([a, b], c);
    TakenStep([a], b);
    TakenStep([], a);
    assert [a, b] + [c] == [a, b, c] && [a] + [b] == [a, b] && [] + [a] == [a];
  }

  lemma TakenStep(readings: seq<Option<Hns>>, x: Option<Hns>)
    ensures Taken(readings + [x]) == Taken(readings) + if x.Some? then [x.value] else []
  {
    assert (readings + [x])[..|readings|] == readings;
  }
}

/** Ownership bookkeeping of the one timer request this process may hold. */
module TimerController {
  import opened Options
  import opened Text
  import opened TimerPlatform

  const SETTLE_THRESHOLD: Hns := 10_000
  const SETTLE_CANDIDATE: Hns := 5_000
  const SETTLE_PROBE_ATTEMPTS: nat := 3

  datatype OwnershipState = Released | Owned | Uncertain
  datatype Verification = NotCollected | Verified | FinerThanRequested | Unverified

  datatype TimingSnapshot = TimingSnapshot(
    requested: Option<Hns>, selected: Option<Hns>, effective: Option<Hns>,
    minimumInterval: Option<Hns>, maximumInterval: Option<Hns>, rawStatus: Option<int>)

  datatype SettleProbeOutcome = Resolved(freed: nat) | ExternalClientConfirmed | Exhausted
  datatype SettleProbeStep =
    NotApplicable | Retry(budgetRemaining: nat) | Settled(outcome: SettleProbeOutcome)

  function BudgetRemaining(used: nat): nat {
    if used < SETTLE_PROBE_ATTEMPTS then SETTLE_PROBE_ATTEMPTS - used else 0
  }

  function NoChange(consumed: nat): SettleProbeStep {
    if BudgetRemaining(consumed) == 0 then Settled(Exhausted) else Retry(BudgetRemaining(consumed))
  }

  predicate Usable(interval: Option<Hns>) {
    interval.Some? ==> 0 < interval.value <= U32_MAX
  }

  // ---------------------------------------------------------------------------
  // What the replies make of a start, a query and a settle probe that begin with call `n`.

  function Observed(s: TimingSnapshot, o: TimerObservation): TimingSnapshot {
    s.(requested := Some(o.requested), effective := Some(o.reportedCurrent), rawStatus := Some(o.rawStatus))
  }

  function Bounded(s: TimingSnapshot, selected: Option<Hns>, b: TimerBounds): TimingSnapshot {
    s.(selected := selected, minimumInterval := Some(b.minimumInterval), maximumInterval := Some(b.maximumInterval))
  }

  function Invalidated(s: TimingSnapshot): TimingSnapshot {
    s.(effective := None, rawStatus := None)
  }

  /** What a start reads and changes, with the native calls made so far. */
  datatype View = View(
    ownership: OwnershipState, selected: Option<Hns>, boundary: Option<Hns>, verification: Verification,
    observation: Option<TimerObservation>, snapshot: TimingSnapshot, held: bool, asked: seq<NativeCall>)

  function WithObservation(v: View, o: TimerObservation): View {
    v.(observation := Some(o), snapshot := Observed(v.snapshot, o))
  }

  function WithoutObservation(v: View): View {
    v.(observation := None, snapshot := Invalidated(v.snapshot))
  }

  /** The first half of a start: the interval is resolved and checked against the bounds. */
  function Prepared(replies: nat -> Reply, v: View, wanted: Hns): (View, Result<Hns>) {
    var first, second := replies(|v.asked|), replies(|v.asked| + 1);
    var interval, v1 := Resolution(first, wanted), v.(asked := v.asked + [AskQuery]);
    if interval.Err? then (WithoutObservation(v1), interval)
    else
      var v2 := v1.(selected := Some(interval.value), boundary := None, asked := v1.asked + [AskQuery]);
      if !Admits(second, interval.value) then
        (WithoutObservation(v2), Err(Refusal(replies, |v.asked| + 1, interval.value)))
      else
        var bounded := v2.(snapshot := Bounded(v2.snapshot, Some(interval.value), BoundsOf(second)));
        (WithObservation(bounded, TimerObservation(interval.value, second.current, STATUS_SUCCESS)), interval)
  }

  /** The second half: the native request for the selected interval, and what becomes of it. */
  function Acquired(replies: nat -> Reply, v: View, interval: Hns): (View, Result<Verification>) {
    var n := |v.asked|;
    var v1 := v.(asked := v.asked + RequestCalls(replies, n, interval));
    if !Sets(replies, n, interval) then (v1, Err(Refusal(replies, n, interval)))
    else
      var reported := Reported(replies, n, interval);
      var v2 := WithObservation(v1.(snapshot := v1.snapshot.(selected := Some(interval)),
                                    held := StaysHeld(replies, n, interval)),
                                TimerObservation(interval, reported, STATUS_SUCCESS));
      if !PassesAt(replies, n + 2, interval) then
        (v2.(ownership := Uncertain, verification := Unverified), Err(Refusal(replies, n, interval)))
      else
        var verified := if reported < interval then FinerThanRequested else Verified;
        (v2.(ownership := Owned, verification := verified), Ok(verified))
  }

  function Started(replies: nat -> Reply, v: View, wanted: Hns): (View, Result<Verification>) {
    if v.ownership != Released || v.verification == Unverified then (v, Ok(v.verification))
    else
      var (v1, interval) := Prepared(replies, v, wanted);
      if interval.Err? then (v1, Err(interval.error)) else Acquired(replies, v1, interval.value)
  }

  /** The step of one probe. */
  function ProbeStep(probe: Result<KernelSettleProbe>, consumed: nat): SettleProbeStep {
    match probe
    case Err(_) => NoChange(consumed)
    case Ok(p) => Settled(if p.after > p.before then Resolved(p.after - p.before) else ExternalClientConfirmed)
  }

  /** The native call with which attempt `k` begins, and what it sees. */
  function AttemptAt(replies: nat -> Reply, n: nat, k: nat): nat {
    if k == 0 then n
    else
      var before := AttemptAt(replies, n, k - 1);
      before + |ProbeCalls(replies, before, SETTLE_CANDIDATE)|
  }

  function Attempt(replies: nat -> Reply, n: nat, k: nat): Result<KernelSettleProbe> {
    Probed(replies, AttemptAt(replies, n, k))
  }

  predicate AttemptsFail(replies: nat -> Reply, n: nat, k: nat) {
    forall i: nat :: i < k ==> Attempt(replies, n, i).Err?
  }

  /** The first attempt that does not fail decides; when all three fail the probe is exhausted. */
  ghost predicate Decided(replies: nat -> Reply, n: nat, step: SettleProbeStep) {
    || (AttemptsFail(replies, n, SETTLE_PROBE_ATTEMPTS) && step == Settled(Exhausted))
    || exists k: nat :: k < SETTLE_PROBE_ATTEMPTS && AttemptsFail(replies, n, k) && Attempt(replies, n, k).Ok?
                        && step == ProbeStep(Attempt(replies, n, k), k + 1)
  }

  lemma DecideStep(replies: nat -> Reply, n: nat, used: nat, step: SettleProbeStep)
    requires used < SETTLE_PROBE_ATTEMPTS && AttemptsFail(replies, n, used)
    requires step == ProbeStep(Attempt(replies, n, used), used + 1)
    ensures if step.Retry? then used + 1 < SETTLE_PROBE_ATTEMPTS && AttemptsFail(replies, n, used + 1)
            else Decided(replies, n, step)
  {
    if step.Retry? || Attempt(replies, n, used).Err? {
      assert AttemptsFail(replies, n, used + 1);
    }
  }

  class TimerController {
    const platform: WindowsTimerPlatform
    var ownership: OwnershipState
    var requestedInterval: Hns
    var selectedInterval: Option<Hns>
    var releaseBoundary: Option<Hns>
    var verification: Verification
    var observation: Option<TimerObservation>
    var snapshot: TimingSnapshot

    /** What every operation keeps. A request held in the kernel is never taken for released, an owned
        one really is held, no set was ever issued on top of another, and a released controller can
        always start again. */
    ghost predicate Valid()
      reads this, platform, platform.kernel
    {
      && (platform.kernel.held ==> ownership != Released)
      && (ownership == Owned ==> platform.kernel.held && platform.requested.Some?)
      && (ownership != Owned ==> platform.requested.None?)
      && (ownership == Released ==> verification != Unverified)
      && (releaseBoundary.Some? ==> ownership == Released)
      && Usable(selectedInterval) && Usable(releaseBoundary)
      && platform.kernel.setsWhileHeld == 0
    }

    /** Whatever may be held can be handed back: `stop` has an interval to release. */
    predicate Anchored()
      reads this
    {
      ownership != Released ==> selectedInterval.Some?
    }

    constructor (platform: WindowsTimerPlatform, requestedInterval: Hns)
      requires platform.requested == None && !platform.kernel.held && platform.kernel.setsWhileHeld == 0
      ensures this.platform == platform && Valid() && Anchored() && ownership == Released
    {
      this.platform := platform;
      this.requestedInterval := requestedInterval;
      ownership, selectedInterval, releaseBoundary := Released, None, None;
      verification, observation := NotCollected, None;
      snapshot := TimingSnapshot(None, None, None, None, None, None);
    }

    method SelectedForQuery() returns (r: Result<Hns>)
      requires Valid()
      modifies this`selectedInterval, platform.kernel`asked
      ensures Valid()
      ensures r == if releaseBoundary.Some? then Ok(releaseBoundary.value)
                   else if old(selectedInterval).Some? then Ok(old(selectedInterval).value)
                   else Resolution(platform.kernel.replies(old(platform.Now())), requestedInterval)
      ensures selectedInterval == if releaseBoundary.None? && old(selectedInterval).None? && r.Ok? then Some(r.value)
                                  else old(selectedInterval)
      ensures platform.kernel.asked ==
        old(platform.kernel.asked) + if releaseBoundary.None? && old(selectedInterval).None? then [AskQuery] else []
    {
      if releaseBoundary.Some? {
        return Ok(releaseBoundary.value);
      }
      if selectedInterval.Some? {
        return Ok(selectedInterval.value);
      }
      r := platform.Resolve(requestedInterval);
      if r.Ok? {
        selectedInterval := Some(r.value);
      }
    }

    method RecordQuery(interval: Hns, current: Hns, rawStatus: int)
      modifies this`observation, this`snapshot
      ensures observation == Some(TimerObservation(interval, current, rawStatus))
      ensures snapshot == Observed(old(snapshot), observation.value)
    {
      observation := Some(TimerObservation(interval, current, rawStatus));
      snapshot := snapshot.(requested := Some(interval), effective := Some(current), rawStatus := Some(rawStatus));
    }

    method InvalidateQuery()
      modifies this`observation, this`snapshot
      ensures observation == None && snapshot == Invalidated(old(snapshot))
    {
      observation := None;
      snapshot := snapshot.(effective := None, rawStatus := None);
    }

    /** The boundary or selection at hand, or else what a first native query resolves to. */
    function QueryInterval(): Result<Hns>
      reads this, platform, platform.kernel
    {
      if releaseBoundary.Some? then Ok(releaseBoundary.value)
      else if selectedInterval.Some? then Ok(selectedInterval.value)
      else Resolution(platform.kernel.replies(platform.Now()), requestedInterval)
    }

    /** The reply that a query reports: the second one when the first went into resolving. */
    function QueryReply(): Reply
      reads this, platform, platform.kernel
    {
      platform.kernel.replies(platform.Now() + Count(releaseBoundary.None? && selectedInterval.None?))
    }

    /** A query never changes what is owned, and a successful one gives an owner its interval back. It
        succeeds exactly when an interval is at hand or resolved and the reply is a success. */
    method Query() returns (r: Result<TimerObservation>)
      requires Valid()
      modifies this`selectedInterval, this`observation, this`snapshot, platform.kernel`asked
      ensures Valid()
      ensures old(Anchored()) ==> Anchored()
      ensures r.Ok? <==> old(QueryInterval()).Ok? && old(QueryReply()).status == STATUS_SUCCESS
      ensures r.Ok? ==>
        r.value == TimerObservation(old(QueryInterval()).value, old(QueryReply()).current, STATUS_SUCCESS)
        && observation == Some(r.value) && Anchored()
        && snapshot == Observed(Bounded(old(snapshot),
                                        if selectedInterval.Some? then selectedInterval else releaseBoundary,
                                        BoundsOf(old(QueryReply()))), r.value)
      ensures r.Err? ==>
        r.error == (if old(QueryInterval()).Err? then old(QueryInterval()).error
                    else QueryFailed(old(QueryReply()).status))
        && observation == None && snapshot == Invalidated(old(snapshot))
      ensures selectedInterval == if releaseBoundary.None? && old(selectedInterval).None? && old(QueryInterval()).Ok?
                                  then Some(old(QueryInterval()).value) else old(selectedInterval)
    {
      var interval := SelectedForQuery();
      if interval.Err? {
        InvalidateQuery();
        return Err(interval.error);
      }
      var query := platform.Query(interval.value);
      if query.Err? {
        InvalidateQuery();
        return Err(query.error);
      }
      snapshot := snapshot.(
        selected := if selectedInterval.Some? then selectedInterval else releaseBoundary,
        minimumInterval := Some(query.value.bounds.minimumInterval),
        maximumInterval := Some(query.value.bounds.maximumInterval));
      RecordQuery(interval.value, query.value.reportedCurrent, query.value.rawStatus);
      return Ok(observation.value);
    }

    method ObserveCurrent(boundary: Hns) returns (r: Result<TimerObservation>)
      requires Valid()
      modifies this`observation, this`snapshot, platform.kernel`asked
      ensures Valid()
      ensures releaseBoundary != Some(boundary) ==>
        r == Err(InvalidInterval) && observation == old(observation) && snapshot == old(snapshot)
        && unchanged(platform.kernel)
      ensures releaseBoundary == Some(boundary) ==>
        var reply := platform.kernel.replies(old(platform.Now()));
        if reply.status == STATUS_SUCCESS then
          && r == Ok(TimerObservation(boundary, reply.current, STATUS_SUCCESS)) && observation == Some(r.value)
          && snapshot == Observed(Bounded(old(snapshot), Some(boundary), BoundsOf(reply)), r.value)
        else
          r == Err(QueryFailed(reply.status)) && observation == None && snapshot == Invalidated(old(snapshot))
    {
      if releaseBoundary != Some(boundary) {
        return Err(InvalidInterval);
      }
      var query := platform.Query(boundary);
      if query.Err? {
        InvalidateQuery();
        return Err(query.error);
      }
      snapshot := snapshot.(selected := Some(boundary),
        minimumInterval := Some(query.value.bounds.minimumInterval),
        maximumInterval := Some(query.value.bounds.maximumInterval));
      RecordQuery(boundary, query.value.reportedCurrent, query.value.rawStatus);
      return Ok(observation.value);
    }

    function Abstract(): View
      reads this, platform, platform.kernel
    {
      View(ownership, selectedInterval, releaseBoundary, verification, observation, snapshot, platform.kernel.held,
           platform.kernel.asked)
    }

    /** Starting anything but a released controller changes nothing at all. */
    method Start() returns (r: Result<Verification>)
      requires Valid()
      modifies this, platform, platform.kernel
      ensures Valid() && requestedInterval == old(requestedInterval)
      ensures old(Anchored()) ==> Anchored()
      ensures old(ownership) != Released ==>
        r == Ok(old(verification)) && unchanged(this) && unchanged(platform) && unchanged(platform.kernel)
      ensures (Abstract(), r) == Started(platform.kernel.replies, old(Abstract()), requestedInterval)
    {
      if ownership != Released || verification == Unverified {
        return Ok(verification);
      }
      var interval := Prepare();
      if interval.Err? {
        return Err(interval.error);
      }
      r := Acquire(interval.value);
    }

    method Prepare() returns (r: Result<Hns>)
      requires Valid() && ownership == Released
      modifies this`selectedInterval, this`releaseBoundary, this`observation, this`snapshot, platform.kernel`asked
      ensures Valid() && (r.Ok? ==> selectedInterval == Some(r.value) && releaseBoundary == None)
      ensures selectedInterval.None? ==> old(selectedInterval).None?
      ensures (Abstract(), r) == Prepared(platform.kernel.replies, old(Abstract()), requestedInterval)
    {
      r := platform.Resolve(requestedInterval);
      if r.Err? {
        InvalidateQuery();
        return;
      }
      selectedInterval := Some(r.value);
      releaseBoundary := None;
      var query := platform.Preflight(r.value);
      if query.Err? {
        InvalidateQuery();
        return Err(query.error);
      }
      snapshot := snapshot.(selected := Some(r.value),
        minimumInterval := Some(query.value.bounds.minimumInterval),
        maximumInterval := Some(query.value.bounds.maximumInterval));
      RecordQuery(r.value, query.value.reportedCurrent, query.value.rawStatus);
    }

    method Acquire(interval: Hns) returns (r: Result<Verification>)
      requires Valid() && ownership == Released && selectedInterval == Some(interval) && releaseBoundary == None
      modifies this`ownership, this`verification, this`observation, this`snapshot, platform, platform.kernel
      ensures Valid()
      ensures (Abstract(), r) == Acquired(platform.kernel.replies, old(Abstract()), interval)
    {
      var request := platform.Request(interval);
      if request.Err? {
        if request.error.PostconditionUnverified? {
          snapshot := snapshot.(selected := Some(interval));
          RecordQuery(interval, request.error.reportedCurrent, request.error.rawStatus);
          ownership := Uncertain;
          verification := Unverified;
        }
        return Err(request.error);
      }
      snapshot := snapshot.(selected := Some(interval));
      RecordQuery(request.value.requested, request.value.reportedCurrent, request.value.rawStatus);
      ownership := Owned;
      verification := if request.value.reportedCurrent < request.value.requested then FinerThanRequested else Verified;
      return Ok(verification);
    }

    /** An anchored owner always reaches the native release; only its success changes ownership. */
    method Stop() returns (r: Result<bool>)
      requires Valid()
      modifies this, platform, platform.kernel
      ensures Valid() && requestedInterval == old(requestedInterval)
      ensures old(Anchored()) ==> Anchored()
      ensures old(ownership) == Released ==>
        r == Ok(false) && unchanged(this) && unchanged(platform) && unchanged(platform.kernel)
      ensures old(ownership) != Released && old(selectedInterval).None? ==>
        r == Err(InvalidInterval) && unchanged(this) && unchanged(platform) && unchanged(platform.kernel)
      ensures old(ownership) != Released && old(selectedInterval).Some? ==>
        var reply := platform.kernel.replies(old(platform.Now()));
        var interval := old(selectedInterval).value;
        && platform.kernel.asked == old(platform.kernel.asked) + [AskSet(interval, false)]
        && (if reply.status == STATUS_SUCCESS then
              && r == Ok(true) && ownership == Released && !platform.kernel.held && verification == NotCollected
              && releaseBoundary == Some(interval) && selectedInterval == None
              && observation == Some(TimerObservation(interval, reply.current, STATUS_SUCCESS))
              && snapshot == Observed(old(snapshot).(selected := Some(interval)), observation.value)
            else
              && r == Err(ReleaseFailed(reply.status)) && ownership == old(ownership) && verification == Unverified
              && platform.kernel.held == old(platform.kernel.held)
              && selectedInterval == old(selectedInterval) && releaseBoundary == old(releaseBoundary)
              && observation == old(observation) && snapshot == old(snapshot))
      ensures platform.kernel.releases ==
        old(platform.kernel.releases) + Count(old(ownership != Released && selectedInterval.Some?))
    {
      if ownership == Released {
        return Ok(false);
      }
      if selectedInterval.None? {
        return Err(InvalidInterval);
      }
      var interval := selectedInterval.value;
      var release := platform.Release(interval);
      if release.Err? {
        verification := Unverified;
        return Err(release.error);
      }
      snapshot := snapshot.(selected := Some(interval));
      RecordQuery(release.value.requested, release.value.reportedCurrent, release.value.rawStatus);
      ownership := Released;
      verification := NotCollected;
      releaseBoundary := Some(interval);
      selectedInterval := None;
      return Ok(true);
    }

    /** Raising the floor un-anchors an owner exactly when its selection lies below the floor. */
    method ClampRequestedIntervalFloor(floor: Hns)
      requires Valid()
      modifies this`requestedInterval, this`selectedInterval
      ensures Valid()
      ensures requestedInterval >= floor && requestedInterval >= old(requestedInterval)
      ensures requestedInterval == floor || requestedInterval == old(requestedInterval)
      ensures selectedInterval == old(selectedInterval) || selectedInterval == None
      ensures selectedInterval.Some? ==> selectedInterval.value >= floor
      ensures old(Anchored()) ==>
                (Anchored() <==> ownership == Released || old(selectedInterval).value >= floor)
    {
      if requestedInterval < floor {
        requestedInterval := floor;
      }
      if selectedInterval.Some? && selectedInterval.value < floor {
        selectedInterval := None;
      }
    }

    method ClearReleaseBoundary()
      requires Valid()
      modifies this`releaseBoundary, this`snapshot
      ensures Valid() && releaseBoundary == None && snapshot == old(snapshot).(selected := None)
    {
      releaseBoundary := None;
      snapshot := snapshot.(selected := None);
    }

    /** A probe is due: released, and the last effective interval known and fine. */
    predicate ProbeDue()
      reads this
    {
      snapshot.effective.Some? && ownership == Released && snapshot.effective.value <= SETTLE_THRESHOLD
    }

    /** One settle probe: it acts only while released, spends at most one native release, and asks for
        another attempt only when the probe itself failed and budget remains. */
    method AttemptStartupKernelSettleProbe(attemptsUsed: nat) returns (step: SettleProbeStep)
      requires Valid()
      modifies this, platform, platform.kernel
      ensures Valid() && ownership == old(ownership) && requestedInterval == old(requestedInterval)
      ensures verification == old(verification)
      ensures old(Anchored()) ==> Anchored()
      ensures !old(ProbeDue()) ==>
        step == if old(snapshot).effective.None? || ownership != Released then NotApplicable
                else Settled(ExternalClientConfirmed)
      ensures old(ProbeDue()) && attemptsUsed >= SETTLE_PROBE_ATTEMPTS ==> step == Settled(Exhausted)
      ensures !old(ProbeDue()) || attemptsUsed >= SETTLE_PROBE_ATTEMPTS ==>
        unchanged(this) && unchanged(platform) && unchanged(platform.kernel)
      ensures old(ProbeDue()) && attemptsUsed < SETTLE_PROBE_ATTEMPTS ==>
        var replies, n := platform.kernel.replies, old(platform.Now());
        var probe := Probed(replies, n);
        && step == ProbeStep(probe, attemptsUsed + 1)
        && platform.kernel.asked == old(platform.kernel.asked) + ProbeCalls(replies, n, SETTLE_CANDIDATE)
        && (if probe.Ok? then
              && observation == Some(TimerObservation(SETTLE_CANDIDATE, probe.value.after, STATUS_SUCCESS))
              && snapshot == Observed(old(snapshot), observation.value)
              && releaseBoundary == None && selectedInterval == None
            else unchanged(this))
      ensures old(platform.kernel.releases) <= platform.kernel.releases <= old(platform.kernel.releases) + 1
    {
      if snapshot.effective.None? {
        return NotApplicable;
      }
      if ownership != Released {
        return NotApplicable;
      }
      if snapshot.effective.value > SETTLE_THRESHOLD {
        return Settled(ExternalClientConfirmed);
      }
      if BudgetRemaining(attemptsUsed) == 0 {
        return Settled(Exhausted);
      }
      var consumed: nat := attemptsUsed + 1;
      var probe := platform.AttemptKernelSettleProbe(SETTLE_CANDIDATE);
      if probe.Err? {
        return NoChange(consumed);
      }
      observation := Some(TimerObservation(SETTLE_CANDIDATE, probe.value.after, 0));
      snapshot := snapshot.(requested := Some(SETTLE_CANDIDATE), effective := Some(probe.value.after),
                            rawStatus := Some(0));
      releaseBoundary := None;
      selectedInterval := None;
      if probe.value.outcome == Restored && probe.value.after > probe.value.before {
        return Settled(Resolved(probe.value.after - probe.value.before));
      } else if probe.value.outcome == ExternalTiming {
        return Settled(ExternalClientConfirmed);
      } else {
        return NoChange(consumed);
      }
    }

    /** Driven to the end, the startup probe makes at most three native releases, and settles with the
        first attempt of which no call fails. */
    method DriveSettleProbe() returns (step: SettleProbeStep)
      requires Valid()
      modifies this, platform, platform.kernel
      ensures Valid() && ownership == old(ownership)
      ensures !step.Retry?
      ensures old(ProbeDue()) ==> Decided(platform.kernel.replies, old(platform.Now()), step)
      ensures platform.kernel.releases <= old(platform.kernel.releases) + SETTLE_PROBE_ATTEMPTS
    {
      ghost var due, replies, n := ProbeDue(), platform.kernel.replies, platform.Now();
      var used := 0;
      step := AttemptStartupKernelSettleProbe(used);
      if due {
        DecideStep(replies, n, used, step);
      }
      while step.Retry?
        invariant Valid() && ownership == old(ownership)
        invariant used < SETTLE_PROBE_ATTEMPTS
        invariant step.Retry? ==> due && ProbeDue() && used + 1 < SETTLE_PROBE_ATTEMPTS
        invariant step.Retry? ==> AttemptsFail(replies, n, used + 1) && platform.Now() == AttemptAt(replies, n, used + 1)
        invariant due && !step.Retry? ==> Decided(replies, n, step)
        invariant platform.kernel.releases <= old(platform.kernel.releases) + used + 1
        decreases SETTLE_PROBE_ATTEMPTS - used
      {
        used := used + 1;
        step := AttemptStartupKernelSettleProbe(used);
        DecideStep(replies, n, used, step);
      }
    }
  }

  // ---------------------------------------------------------------------------
  // Which starts succeed.

  /** The bounds of three queries in a row admit the interval, the set succeeds, and of the three samples
      two are good, or one of exactly two. */
  predicate Obtains(replies: nat -> Reply, n: nat, interval: Hns) {
    && Admits(replies(n), interval) && Admits(replies(n + 1), interval) && Admits(replies(n + 2), interval)
    && replies(n + 3).status == STATUS_SUCCESS
    && Passes(interval, Reading(replies(n + 4)), Reading(replies(n + 5)), Reading(replies(n + 6)))
  }

  /** The interval a start works with: the wanted one, or the smallest that the first reply allows. */
  function Wanted(reply: Reply, wanted: Hns): Hns {
    if wanted == 0 then NumericInterval(BoundsOf(reply)).0 else wanted
  }

  /** The preparation succeeds exactly when two queries in a row admit the interval. */
  lemma PreparedExactly(replies: nat -> Reply, v: View, wanted: Hns)
    ensures var n := |v.asked|;
            var (after, r) := Prepared(replies, v, wanted);
            var interval := Wanted(replies(n), wanted);
            && (r.Ok? <==> Admits(replies(n), interval) && Admits(replies(n + 1), interval))
            && after.ownership == v.ownership && after.verification == v.verification && after.held == v.held
            && (r.Ok? ==>
                  && r.value == interval && after.selected == Some(interval) && after.boundary == None
                  && |after.asked| == n + 2 && after.asked == v.asked + [AskQuery, AskQuery])
  {
  }

  lemma AcquiredExactly(replies: nat -> Reply, v: View, interval: Hns)
    requires v.ownership == Released && v.verification != Unverified
    ensures var n := |v.asked|;
            var (after, r) := Acquired(replies, v, interval);
            && (r.Ok? <==> Grants(replies, n, interval))
            && (after.ownership == Owned <==> r.Ok?)
            && (after.ownership == Uncertain <==> Sets(replies, n, interval) && !Grants(replies, n, interval))
            && (after.ownership == Released <==> !Sets(replies, n, interval))
            && after.held == (if Sets(replies, n, interval) then StaysHeld(replies, n, interval) else v.held)
            && after.selected == v.selected && after.boundary == v.boundary
            && (after.ownership == Uncertain ==> after.verification == Unverified)
  {
  }

  /** What is on record after a granted request. */
  lemma AcquiredReading(replies: nat -> Reply, v: View, interval: Hns)
    requires Grants(replies, |v.asked|, interval)
    ensures var n := |v.asked|;
            var (after, r) := Acquired(replies, v, interval);
            && r.Ok? && r.value == after.verification
            && after.observation.Some? && after.observation.value.requested == interval
            && var reading := after.observation.value.reportedCurrent;
              && Some(reading) in [Reading(replies(n + 2)), Reading(replies(n + 3)), Reading(replies(n + 4))]
              && Satisfies(reading, interval)
              && after.verification == (if reading < interval then FinerThanRequested else Verified)
  {
    var n := |v.asked|;
    SampledAtPasses(replies, n + 2, interval);
    SampledPasses(interval, Reading(replies(n + 2)), Reading(replies(n + 3)), Reading(replies(n + 4)));
  }

  /** A start of a released controller succeeds, and ends owned, exactly when the replies obtain its
      interval. Then the selection is that interval, it is held in the kernel, and a good sample is on
      record. */
  lemma StartsExactly(replies: nat -> Reply, v: View, wanted: Hns)
    requires v.ownership == Released && v.verification != Unverified
    ensures var n := |v.asked|;
            var (after, r) := Started(replies, v, wanted);
            var interval := Wanted(replies(n), wanted);
            && (r.Ok? <==> Obtains(replies, n, interval))
            && (after.ownership == Owned <==> r.Ok?)
            && (r.Ok? ==>
                  && after.held && after.selected == Some(interval) && after.boundary == None
                  && after.observation.Some? && after.observation.value.requested == interval
                  && Some(after.observation.value.reportedCurrent)
                       in [Reading(replies(n + 4)), Reading(replies(n + 5)), Reading(replies(n + 6))]
                  && Satisfies(after.observation.value.reportedCurrent, interval)
                  && r.value == after.verification
                  && after.verification == (if after.observation.value.reportedCurrent < interval
                                            then FinerThanRequested else Verified))
  {
    PreparedExactly(replies, v, wanted);
    var (v1, interval) := Prepared(replies, v, wanted);
    if interval.Ok? {
      AcquiredExactly(replies, v1, interval.value);
      if Grants(replies, |v1.asked|, interval.value) {
        AcquiredReading(replies, v1, interval.value);
      }
    }
  }

  /** It ends uncertain exactly when the request was set and its samples do not pass, and then a failed
      rollback leaves it held; in every other case of failure nothing is held. */
  lemma FailedStart(replies: nat -> Reply, v: View, wanted: Hns)
    requires v.ownership == Released && v.verification != Unverified && !v.held
    ensures var n := |v.asked|;
            var (after, r) := Started(replies, v, wanted);
            var interval := Wanted(replies(n), wanted);
            var set_ := Admits(replies(n), interval) && Admits(replies(n + 1), interval) && Admits(replies(n + 2), interval)
                        && replies(n + 3).status == STATUS_SUCCESS;
            && (after.ownership == Uncertain <==> set_ && !Obtains(replies, n, interval))
            && (after.ownership == Uncertain ==>
                  after.verification == Unverified && (after.held <==> replies(n + 7).status != STATUS_SUCCESS))
            && (r.Err? && after.ownership != Uncertain ==> after.ownership == Released && !after.held)
  {
    PreparedExactly(replies, v, wanted);
    var (v1, interval) := Prepared(replies, v, wanted);
    if interval.Ok? {
      AcquiredExactly(replies, v1, interval.value);
    }
  }

  datatype Op =
    | DoQuery | DoObserve(boundary: Hns) | DoStart | DoStop | DoClamp(floor: Hns) | DoClearBoundary
    | DoSettleProbe(attemptsUsed: nat)

  /** Every run of operations, whatever the kernel answers. When the floor is only raised while
      released, an owner can always be stopped. */
  method RunOperations(c: TimerController, ops: seq<Op>, clampOnlyReleased: bool)
    requires c.Valid() && c.Anchored()
    modifies c, c.platform, c.platform.kernel
    ensures c.Valid()
    ensures clampOnlyReleased ==> c.Anchored()
    ensures c.platform.kernel.setsWhileHeld == 0
    ensures c.platform.kernel.held ==> c.ownership != Released
    ensures c.ownership == Owned ==> c.platform.kernel.held
  {
    for i := 0 to |ops|
      invariant c.Valid()
      invariant clampOnlyReleased ==> c.Anchored()
    {
      match ops[i] {
        case DoQuery => var r := c.Query();
        case DoObserve(boundary) => var r := c.ObserveCurrent(boundary);
        case DoStart => var r := c.Start();
        case DoStop => var r := c.Stop();
        case DoClamp(floor) =>
          if !clampOnlyReleased || c.ownership == Released {
            c.ClampRequestedIntervalFloor(floor);
          }
        case DoClearBoundary => c.ClearReleaseBoundary();
        case DoSettleProbe(used) => var step := c.AttemptStartupKernelSettleProbe(used);
      }
    }
  }

  /** The other direction: clamp an owner above its selection and `stop` no longer releases. */
  method ClampedOwnerCannotStop(c: TimerController, floor: Hns) returns (r: Result<bool>)
    requires c.Valid() && c.ownership == Owned && c.selectedInterval.Some? && c.selectedInterval.value < floor
    modifies c, c.platform, c.platform.kernel
    ensures r == Err(InvalidInterval) && c.ownership == Owned && c.platform.kernel.held
    ensures c.platform.kernel.releases == old(c.platform.kernel.releases)
  {
    c.ClampRequestedIntervalFloor(floor);
    r := c.Stop();
  }
}
