/** The threshold counters of the rule engine: per rule and group key, a tumbling window that is
    anchored at its first event, deleted on alert and restarted on expiry. */
module Threshold {
  import opened Shared

  // A time in milliseconds; Invalid is the NaN an unparsable timestamp gives, which compares false.
  datatype Stamp = At(ms: int) | Invalid

  datatype Counter = Counter(count: nat, firstSeen: Stamp)

  datatype Limit = Limit(count: int, windowSeconds: real)

  datatype Checked = Checked(counter: Option<Counter>, alert: bool)

  predicate Exceeded(now: Stamp, first: Stamp, limit: Limit) {
    now.At? && first.At? && (now.ms - first.ms) as real / 1000.0 > limit.windowSeconds
  }

  // One matching event of one group.
  function Check(c: Option<Counter>, now: Stamp, limit: Limit): Checked {
    var counted := if c.None? then Counter(1, now) else c.value.(count := c.value.count + 1);
    if Exceeded(now, counted.firstSeen, limit) then Checked(Some(Counter(1, now)), false)
    else if counted.count >= limit.count then Checked(None, true)
    else Checked(Some(counted), false)
  }

  // No more than the window lies between two valid stamps, in milliseconds; an invalid one is always in time.
  predicate Within(first: Stamp, later: Stamp, limit: Limit) {
    first.At? && later.At? ==> (later.ms - first.ms) as real <= 1000.0 * limit.windowSeconds
  }

  /** One event, for what it means: later than the window after the first event counted, it starts anew
      and never alerts; in time, it counts, and alerts and starts anew exactly if it is the `count`-th. */
  lemma OneEventMeans(c: Counter, now: Stamp, limit: Limit)
    ensures var r := Check(Some(c), now, limit);
            if now.At? && c.firstSeen.At? && (now.ms - c.firstSeen.ms) as real > 1000.0 * limit.windowSeconds then
              r == Checked(Some(Counter(1, now)), false)
            else if c.count + 1 < limit.count then r == Checked(Some(Counter(c.count + 1, c.firstSeen)), false)
            else r == Checked(None, true)
    ensures limit.windowSeconds >= 0.0 ==>
              Check(None, now, limit) ==
              if limit.count <= 1 then Checked(None, true) else Checked(Some(Counter(1, now)), false)
  {
    assert limit.windowSeconds >= 0.0 ==> !Exceeded(now, now, limit);
  }

  function After(c: Option<Counter>, stamps: seq<Stamp>, limit: Limit): Option<Counter>
    decreases |stamps|
  {
    if stamps == [] then c else After(Check(c, stamps[0], limit).counter, stamps[1..], limit)
  }

  // The answers to a stream of events of one group.
  function Answers(c: Option<Counter>, stamps: seq<Stamp>, limit: Limit): (alerts: seq<bool>)
    ensures |alerts| == |stamps|
    decreases |stamps|
  {
    if stamps == [] then []
    else
      var r := Check(c, stamps[0], limit);
      [r.alert] + Answers(r.counter, stamps[1..], limit)
  }

  lemma {:induction false} AnswersConcat(c: Option<Counter>, a: seq<Stamp>, b: seq<Stamp>, limit: Limit)
    ensures Answers(c, a + b, limit) == Answers(c, a, limit) + Answers(After(c, a, limit), b, limit)
    ensures After(c, a + b, limit) == After(After(c, a, limit), b, limit)
    decreases |a|
  {
    if a == [] {
      assert a + b == b;
    } else {
      assert (a + b)[1..] == a[1..] + b;
      AnswersConcat(Check(c, a[0], limit).counter, a[1..], b, limit);
    }
  }

  // ---- Soundness and conservation ----

  // One event reaches a limit below two.
  function Quota(limit: Limit): nat {
    if limit.count < 1 then 1 else limit.count
  }

  // What every stored counter satisfies.
  predicate InRange(c: Option<Counter>, limit: Limit) {
    c.Some? ==> 1 <= c.value.count < limit.count
  }

  lemma CheckKeepsRange(c: Option<Counter>, now: Stamp, limit: Limit)
    requires limit.windowSeconds >= 0.0 && InRange(c, limit)
    ensures InRange(Check(c, now, limit).counter, limit)
  {
    assert Within(now, now, limit);
  }

  /** From an empty cache, every stored counter stays strictly below the limit. */
  lemma {:induction false} CounterStaysInRange(c: Option<Counter>, stamps: seq<Stamp>, limit: Limit)
    requires limit.windowSeconds >= 0.0 && InRange(c, limit)
    ensures InRange(After(c, stamps, limit), limit)
    decreases |stamps|
  {
    if stamps != [] {
      CheckKeepsRange(c, stamps[0], limit);
      CounterStaysInRange(Check(c, stamps[0], limit).counter, stamps[1..], limit);
    }
  }

  function Held(c: Option<Counter>): nat {
    if c.None? then 0 else c.value.count
  }

  function CountAlerts(alerts: seq<bool>): nat {
    if alerts == [] then 0 else (if alerts[0] then 1 else 0) + CountAlerts(alerts[1..])
  }

  // Events that were counted and then thrown away because the window had run out.
  function Discarded(c: Option<Counter>, stamps: seq<Stamp>, limit: Limit): nat
    decreases |stamps|
  {
    if stamps == [] then 0
    else
      (if c.Some? && !Within(c.value.firstSeen, stamps[0], limit) then c.value.count else 0)
      + Discarded(Check(c, stamps[0], limit).counter, stamps[1..], limit)
  }

  lemma OneEventIsConserved(c: Option<Counter>, now: Stamp, limit: Limit)
    requires limit.windowSeconds >= 0.0 && InRange(c, limit)
    ensures var r := Check(c, now, limit);
            Held(c) + 1 == (if r.alert then Quota(limit) else 0)
                           + (if c.Some? && !Within(c.value.firstSeen, now, limit) then c.value.count else 0)
                           + Held(r.counter)
  {
    assert Within(now, now, limit);
  }

  /** Conservation: every event is in exactly one alert, discarded by expiry, or still counted. */
  lemma {:induction false} EventsAreConserved(c: Option<Counter>, stamps: seq<Stamp>, limit: Limit)
    requires limit.windowSeconds >= 0.0 && InRange(c, limit)
    ensures Held(c) + |stamps| ==
            Quota(limit) * CountAlerts(Answers(c, stamps, limit))
            + Discarded(c, stamps, limit) + Held(After(c, stamps, limit))
    decreases |stamps|
  {
    hide Exceeded, Within, Quota, Held;
    if stamps == [] {
      assert CountAlerts(Answers(c, stamps, limit)) == 0;
    } else {
      var r, rest := Check(c, stamps[0], limit), stamps[1..];
      CheckKeepsRange(c, stamps[0], limit);
      OneEventIsConserved(c, stamps[0], limit);
      EventsAreConserved(r.counter, rest, limit);
      hide Check, InRange;
      assert Answers(c, stamps, limit)[1..] == Answers(r.counter, rest, limit);
      var n := CountAlerts(Answers(r.counter, rest, limit));
      assert CountAlerts(Answers(c, stamps, limit)) == (if r.alert then 1 else 0) + n;
      assert Quota(limit) * (1 + n) == Quota(limit) + Quota(limit) * n;
    }
  }

  // The events a counter has counted: as many as it says, anchored at the first, none too late.
  ghost predicate Counted(c: Option<Counter>, recent: seq<Stamp>, limit: Limit) {
    && |recent| == Held(c)
    && (c.Some? ==> recent != [] && c.value.firstSeen == recent[0])
    && (forall j :: 0 <= j < |recent| ==> Within(recent[0], recent[j], limit))
  }

  // alerts[i] ends a batch of Quota events of recent + stamps, all within the window of its first,
  // none of which raised an alert before.
  ghost predicate EndsBatch(recent: seq<Stamp>, stamps: seq<Stamp>, alerts: seq<bool>, i: nat, limit: Limit)
    requires i < |stamps| == |alerts|
  {
    var all, end := recent + stamps, |recent| + i + 1;
    && Quota(limit) <= end
    && (forall j :: end - Quota(limit) <= j < end ==> Within(all[end - Quota(limit)], all[j], limit))
    && (forall j :: 0 <= j < i && end - Quota(limit) <= |recent| + j ==> !alerts[j])
  }

  lemma {:induction false} AlertsEndBatches(
    c: Option<Counter>, recent: seq<Stamp>, stamps: seq<Stamp>, limit: Limit, i: nat)
    requires limit.windowSeconds >= 0.0 && InRange(c, limit) && Counted(c, recent, limit)
    requires i < |stamps| && Answers(c, stamps, limit)[i]
    ensures EndsBatch(recent, stamps, Answers(c, stamps, limit), i, limit)
    decreases |stamps|
  {
    var now := stamps[0];
    var r := Check(c, now, limit);
    var alerts := Answers(c, stamps, limit);
    assert Within(now, now, limit);
    if i > 0 {
      var next := if r.alert then [] else if r.counter == Some(Counter(1, now)) then [now] else recent + [now];
      CheckKeepsRange(c, now, limit);
      AlertsEndBatches(r.counter, next, stamps[1..], limit, i - 1);
      ShiftBatch(recent, next, stamps, alerts, i, limit);
    }
  }

  lemma ShiftBatch(recent: seq<Stamp>, next: seq<Stamp>, stamps: seq<Stamp>, alerts: seq<bool>, i: nat, limit: Limit)
    requires 0 < i < |stamps| == |alerts|
    requires next == [] || next == [stamps[0]] || next == recent + [stamps[0]]
    requires alerts[0] ==> next == []
    requires EndsBatch(next, stamps[1..], alerts[1..], i - 1, limit)
    ensures EndsBatch(recent, stamps, alerts, i, limit)
  {
    var all, end := recent + stamps, |recent| + i + 1;
    var all', end' := next + stamps[1..], |next| + i;
    var d := end - end';
    forall j | end - Quota(limit) <= j < end ensures Within(all[end - Quota(limit)], all[j], limit) {
      assert all[j] == all'[j - d] && all[end - Quota(limit)] == all'[end' - Quota(limit)];
    }
    forall j | 0 <= j < i && end - Quota(limit) <= |recent| + j ensures !alerts[j] {
      if j > 0 {
        assert alerts[j] == alerts[1..][j - 1];
      }
    }
  }

  /** Soundness: from an empty cache, every alert is raised by exactly `count` consecutive events
      of its group, all within the window of the first of them, and no event is in two alerts. */
  lemma AlertsAreSound(stamps: seq<Stamp>, limit: Limit, i: nat)
    requires limit.windowSeconds >= 0.0 && i < |stamps| && Answers(None, stamps, limit)[i]
    ensures Quota(limit) <= i + 1
    ensures forall j :: i + 1 - Quota(limit) <= j <= i ==> Within(stamps[i + 1 - Quota(limit)], stamps[j], limit)
    ensures forall j :: i + 1 - Quota(limit) <= j < i ==> !Answers(None, stamps, limit)[j]
  {
    AlertsEndBatches(None, [], stamps, limit, i);
    assert [] + stamps == stamps;
  }

  // ---- Detection bound ----

  // All events lie within one window length of each other, in any order.
  ghost predicate Burst(stamps: seq<Stamp>, limit: Limit) {
    forall i, j :: 0 <= i < |stamps| && 0 <= j < |stamps| ==> Within(stamps[j], stamps[i], limit)
  }

  // An anchored counter that cannot expire reaches the limit.
  lemma {:induction false} AnchoredCounterAlerts(c: Counter, stamps: seq<Stamp>, limit: Limit)
    requires c.count < limit.count && c.count + |stamps| >= limit.count
    requires forall i :: 0 <= i < |stamps| ==> Within(c.firstSeen, stamps[i], limit)
    ensures true in Answers(Some(c), stamps, limit)
    decreases |stamps|
  {
    if c.count + 1 < limit.count {
      AnchoredCounterAlerts(c.(count := c.count + 1), stamps[1..], limit);
    }
    var r := Check(Some(c), stamps[0], limit);
    assert Answers(Some(c), stamps, limit) == [r.alert] + Answers(r.counter, stamps[1..], limit);
  }

  lemma {:induction false} BurstAlerts(c: Option<Counter>, stamps: seq<Stamp>, limit: Limit)
    requires limit.count >= 2 && InRange(c, limit) && Burst(stamps, limit)
    requires |stamps| >= 2 * limit.count - 1 - (if c.Some? then c.value.count else 1)
    ensures true in Answers(c, stamps, limit)
    decreases |stamps|
  {
    var now, rest := stamps[0], stamps[1..];
    var r := Check(c, now, limit);
    assert Burst(rest, limit);
    assert Within(now, now, limit);
    if !r.alert {
      if c.Some? && r.counter.value.count > 1 {
        BurstAlerts(r.counter, rest, limit);
      } else {
        AnchoredCounterAlerts(Counter(1, now), rest, limit);
      }
      assert Answers(c, stamps, limit)[1..] == Answers(r.counter, rest, limit);
    }
  }

  /** Detection bound: whatever a group's counter held before, any 2 * count - 2 further events of
      the group within one window of each other raise an alert. */
  lemma BurstIsDetected(past: seq<Stamp>, stamps: seq<Stamp>, limit: Limit)
    requires limit.count >= 2 && limit.windowSeconds >= 0.0
    requires Burst(stamps, limit) && |stamps| >= 2 * limit.count - 2
    ensures exists i :: |past| <= i < |past + stamps| && Answers(None, past + stamps, limit)[i]
  {
    CounterStaysInRange(None, past, limit);
    AnswersConcat(None, past, stamps, limit);
    var alerts := Answers(After(None, past, limit), stamps, limit);
    BurstAlerts(After(None, past, limit), stamps, limit);
    var k :| 0 <= k < |alerts| && alerts[k];
    assert Answers(None, past + stamps, limit)[|past| + k];
  }

  function Repeat(s: Stamp, n: nat): seq<Stamp> {
    seq(n, _ => s)
  }

  // Below the limit and inside the window, a counter only counts.
  lemma {:induction false} CountingIsSilent(c: Counter, s: Stamp, n: nat, limit: Limit)
    requires c.count + n < limit.count && Within(c.firstSeen, s, limit)
    ensures true !in Answers(Some(c), Repeat(s, n), limit)
    ensures After(Some(c), Repeat(s, n), limit) == Some(c.(count := c.count + n))
    decreases n
  {
    if n > 0 {
      assert Repeat(s, n)[1..] == Repeat(s, n - 1);
      CountingIsSilent(c.(count := c.count + 1), s, n - 1, limit);
    }
  }

  /** The bound is tight: for every limit of at least two within at least one millisecond, one past
      event and a burst of 2 * count - 3 events raise no alert at all. */
  lemma DetectionBoundIsTight(limit: Limit) returns (past: seq<Stamp>, burst: seq<Stamp>)
    requires limit.count >= 2 && limit.windowSeconds >= 0.001
    ensures Burst(burst, limit) && |burst| == 2 * limit.count - 3
    ensures forall i :: 0 <= i < |burst| ==> burst[i].At?
    ensures true !in Answers(None, past + burst, limit)
  {
    var w := (limit.windowSeconds * 1000.0).Floor;
    var early, late := Repeat(At(w), limit.count - 2), Repeat(At(w + 1), limit.count - 2);
    past, burst := [At(0)], early + [At(w + 1)] + late;
    assert Within(At(0), At(0), limit) && Within(At(0), At(w), limit) && !Within(At(0), At(w + 1), limit);
    assert After(None, past, limit) == Some(Counter(1, At(0)));
    AnswersConcat(None, past, burst, limit);
    AnswersConcat(Some(Counter(1, At(0))), early, [At(w + 1)] + late, limit);
    assert burst == early + ([At(w + 1)] + late);
    CountingIsSilent(Counter(1, At(0)), At(w), limit.count - 2, limit);
    CountingIsSilent(Counter(1, At(w + 1)), At(w + 1), limit.count - 2, limit);
    assert ([At(w + 1)] + late)[1..] == late;
  }

  // ---- Many groups ----

  type Cache = map<string, Counter>

  datatype Hit = Hit(group: string, now: Stamp)

  function Store(cache: Cache, group: string, c: Option<Counter>): Cache {
    match c case None => cache - {group} case Some(counter) => cache[group := counter]
  }

  function CacheAfter(cache: Cache, hits: seq<Hit>, limit: Limit): Cache
    decreases |hits|
  {
    if hits == [] then cache
    else
      var r := Check(Lookup(cache, hits[0].group), hits[0].now, limit);
      CacheAfter(Store(cache, hits[0].group, r.counter), hits[1..], limit)
  }

  function CacheAnswers(cache: Cache, hits: seq<Hit>, limit: Limit): (alerts: seq<bool>)
    ensures |alerts| == |hits|
    decreases |hits|
  {
    if hits == [] then []
    else
      var r := Check(Lookup(cache, hits[0].group), hits[0].now, limit);
      [r.alert] + CacheAnswers(Store(cache, hits[0].group, r.counter), hits[1..], limit)
  }

  function StampsOf(hits: seq<Hit>, group: string): seq<Stamp> {
    if hits == [] then []
    else (if hits[0].group == group then [hits[0].now] else []) + StampsOf(hits[1..], group)
  }

  function AnswersOf(hits: seq<Hit>, alerts: seq<bool>, group: string): seq<bool>
    requires |hits| == |alerts|
  {
    if hits == [] then []
    else (if hits[0].group == group then [alerts[0]] else []) + AnswersOf(hits[1..], alerts[1..], group)
  }

  /** Groups do not interfere: in any interleaving of events of many groups, each group gets the
      answers, and ends with the counter, it would have had on its own. */
  lemma {:induction false} GroupsDoNotInterfere(cache: Cache, hits: seq<Hit>, limit: Limit, group: string)
    ensures AnswersOf(hits, CacheAnswers(cache, hits, limit), group) ==
            Answers(Lookup(cache, group), StampsOf(hits, group), limit)
    ensures Lookup(CacheAfter(cache, hits, limit), group) ==
            After(Lookup(cache, group), StampsOf(hits, group), limit)
    decreases |hits|
  {
    if hits != [] {
      var r := Check(Lookup(cache, hits[0].group), hits[0].now, limit);
      var next := Store(cache, hits[0].group, r.counter);
      GroupsDoNotInterfere(next, hits[1..], limit, group);
      assert CacheAnswers(cache, hits, limit)[1..] == CacheAnswers(next, hits[1..], limit);
      if hits[0].group == group {
        assert StampsOf(hits, group)[1..] == StampsOf(hits[1..], group);
      } else {
        assert [] + StampsOf(hits[1..], group) == StampsOf(hits, group) == StampsOf(hits[1..], group);
        assert AnswersOf(hits, CacheAnswers(cache, hits, limit), group) ==
               [] + AnswersOf(hits[1..], CacheAnswers(next, hits[1..], limit), group);
      }
    }
  }
}
