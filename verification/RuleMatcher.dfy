/** The engine with its module state: the active rules, the threshold counters and the alerts it has
    pushed. Its loops are proved against RuleEngine.Evaluate. */
module RuleMatcher {
  import opened Shared
  import opened Threshold
  import opened RuleEngine

  class Matcher {
    const host: Host
    var activeRules: seq<Rule>
    var thresholdCache: Caches
    var pushed: seq<Alert>

    constructor (h: Host)
      ensures host == h && activeRules == [] && thresholdCache == map[] && pushed == []
    {
      host := h;
      activeRules, thresholdCache, pushed := [], map[], [];
    }

    /** Replaces the rules; anything that is not an array (None) is ignored. Counters stay. */
    method ParseRule(rules: Option<seq<Rule>>)
      modifies this`activeRules
      ensures activeRules == if rules.Some? then rules.value else old(activeRules)
    {
      if rules.Some? {
        activeRules := rules.value;
      }
    }

    /** Advances one counter, of this rule and this event's group, by one event, and answers whether
        it reached the limit; every other counter of every rule stays as it is. */
    method CheckThreshold(rule: Rule, ev: Event, clock: int) returns (alert: bool)
      requires rule.threshold.Some? && !GroupThrows(rule, ev)
      modifies this`thresholdCache
      ensures var group := GroupKey(host, ev, rule.threshold.value.groupBy);
              var checked := Check(CounterOf(old(thresholdCache), rule.id, group), Now(ev, clock),
                                   rule.threshold.value.limit);
              && alert == checked.alert
              && thresholdCache ==
                 old(thresholdCache)[rule.id := Store(RuleCache(old(thresholdCache), rule.id), group, checked.counter)]
              && (forall id, g ::
                    CounterOf(thresholdCache, id, g) ==
                    if id == rule.id && g == group then checked.counter else CounterOf(old(thresholdCache), id, g))
    {
      var id, limit := rule.id, rule.threshold.value.limit;
      if id !in thresholdCache {
        thresholdCache := thresholdCache[id := map[]];
      }
      var groupKey := ev.agentId;
      if |rule.threshold.value.groupBy| > 0 {
        groupKey := groupKey + Joined(host, ev.payload.value, rule.threshold.value.groupBy);
      }
      assert groupKey == GroupKey(host, ev, rule.threshold.value.groupBy) by {
        assert ev.agentId + "" == ev.agentId;
      }
      alert := CountHit(id, groupKey, Now(ev, clock), limit);
      ghost var before := RuleCache(old(thresholdCache), id);
      forall other, g
        ensures CounterOf(thresholdCache, other, g) ==
                if other == id && g == groupKey then Check(Lookup(before, groupKey), Now(ev, clock), limit).counter
                else CounterOf(old(thresholdCache), other, g)
      {
        AdvanceTouchesOne(old(thresholdCache), id, groupKey,
                          Check(Lookup(before, groupKey), Now(ev, clock), limit).counter, other, g);
      }
    }

    // The counting itself, on the cache of one rule.
    method CountHit(id: string, groupKey: string, now: Stamp, limit: Limit) returns (alert: bool)
      requires id in thresholdCache
      modifies this`thresholdCache
      ensures var checked := Check(Lookup(old(thresholdCache)[id], groupKey), now, limit);
              && alert == checked.alert
              && thresholdCache == old(thresholdCache)[id := Store(old(thresholdCache)[id], groupKey, checked.counter)]
    {
      hide Exceeded;
      var cache := thresholdCache[id];
      ghost var was := cache;
      if groupKey !in cache {
        cache := cache[groupKey := Counter(1, now)];
      } else {
        cache := cache[groupKey := cache[groupKey].(count := cache[groupKey].count + 1)];
      }
      var counted := cache[groupKey];
      if Exceeded(now, counted.firstSeen, limit) {
        cache := cache[groupKey := Counter(1, now)];
        alert := false;
      } else if counted.count >= limit.count {
        cache := cache - {groupKey};
        alert := true;
      } else {
        alert := false;
      }
      assert cache == Store(was, groupKey, Check(Lookup(was, groupKey), now, limit).counter);
      thresholdCache := thresholdCache[id := cache];
    }

    /** The conditions of one rule, in order, up to the first that does not hold. */
    method MatchConditions(conditions: seq<Condition>, payload: Option<Fields>) returns (v: Verdict)
      ensures v == JudgeAll(host, conditions, payload)
    {
      hide Judge;
      v := Holds;
      var rest := conditions;
      while rest != []
        invariant v.Holds?
        invariant JudgeAll(host, rest, payload) == JudgeAll(host, conditions, payload)
      {
        v := Judge(host, rest[0], payload);
        if !v.Holds? {
          return;
        }
        rest := rest[1..];
      }
    }

    method Fire(rule: Rule, ev: Event) returns (o: Outcome)
      modifies this`pushed
      ensures o == Done([AlertOf(rule, ev)], rule.level >= 10)
      ensures pushed == old(pushed) + if rule.level >= 10 then [AlertOf(rule, ev)] else []
    {
      var alert := AlertOf(rule, ev);
      if rule.level >= 10 {
        pushed := pushed + [alert];
        return Done([alert], true);
      }
      return Done([alert], false);
    }

    /** One event through all active rules. */
    method EvaluateData(ev: Event, clock: int) returns (o: Outcome)
      modifies this`thresholdCache, this`pushed
      ensures var r := Evaluate(host, activeRules, ev, clock, old(thresholdCache));
              thresholdCache == r.caches && o == r.outcome && pushed == old(pushed) + r.notified
    {
      hide JudgeAll, TypeFits, Check, CounterOf;
      var rest := activeRules;
      while rest != []
        invariant pushed == old(pushed)
        invariant Evaluate(host, rest, ev, clock, thresholdCache) ==
                  Evaluate(host, activeRules, ev, clock, old(thresholdCache))
      {
        var rule := rest[0];
        if TypeFits(rule, ev) {
          var v := MatchConditions(rule.conditions, ev.payload);
          if v.Throws? || (v.Holds? && GroupThrows(rule, ev)) {
            return Threw;
          }
          if v.Holds? {
            if rule.threshold.None? {
              o := Fire(rule, ev);
              return;
            }
            var reached := CheckThreshold(rule, ev, clock);
            if reached {
              o := Fire(rule, ev);
              return;
            }
          }
        }
        rest := rest[1..];
      }
      return Done([], false);
    }
  }

  // ---- parser.js: from a record of the agent to the event the engine sees ----

  // metadata and payload are None when absent; timestamp is None when absent or empty.
  datatype RawRecord = RawRecord(kind: string, dataType: string, timestamp: Option<Stamp>,
                                 metadata: Option<Fields>, payload: Option<Fields>)

  function ParseAgentData(raw: RawRecord, agentId: string, arrival: int): Option<Event> {
    if agentId == "" || (raw.kind == "" && raw.dataType == "") then None
    else
      var stamp := if raw.timestamp.Some? then raw.timestamp.value else At(arrival);
      var body := if raw.metadata.Some? then raw.metadata else raw.payload;
      Some(Event(agentId, FirstNonEmpty(raw.kind, raw.dataType), "", body, Some(stamp)))
  }

  /** A record without agent or type gets to no rule; any other carries its own time, so the engine's
      clock never decides: whenever the rules are evaluated, the outcome, the counters and the pushes are
      the same, for every rule list. */
  lemma {:induction false} ParsedEventsIgnoreTheClock(
    host: Host, rules: seq<Rule>, raw: RawRecord, agentId: string, arrival: int,
    one: int, two: int, caches: Caches)
    ensures var parsed := ParseAgentData(raw, agentId, arrival);
            if agentId == "" || (raw.kind == "" && raw.dataType == "") then parsed.None?
            else
              && parsed.Some?
              && Evaluate(host, rules, parsed.value, one, caches) == Evaluate(host, rules, parsed.value, two, caches)
    decreases |rules|
  {
    hide Entry, GroupKey, Check, CounterOf;
    var parsed := ParseAgentData(raw, agentId, arrival);
    if rules != [] && parsed.Some? {
      ParsedEventsIgnoreTheClock(host, rules[1..], raw, agentId, arrival, one, two, caches);
      ParsedEventsIgnoreTheClock(host, rules[1..], raw, agentId, arrival, one, two,
                                 NextCaches(host, rules[0], parsed.value, one, caches));
    }
  }
}
