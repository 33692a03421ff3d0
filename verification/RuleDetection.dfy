/** The threshold theorems for the engine as a whole: what a rule with a threshold does in any list of
    rules, on any stream of events. */
module RuleDetection {
  import opened Shared
  import opened Threshold
  import opened RuleEngine
  import opened RuleShadowing
  import opened RuleMatcher

  // The hits of rule r: an event gets to it, past every rule in front, and matches it.
  function HitOf(host: Host, pre: seq<Rule>, r: Rule, a: Arrival, caches: Caches): Option<Hit>
    requires r.threshold.Some?
  {
    if Evaluate(host, pre, a.ev, a.clock, caches).outcome == Done([], false) && Entry(host, r, a.ev).Holds? then
      Some(Hit(GroupKey(host, a.ev, r.threshold.value.groupBy), Now(a.ev, a.clock)))
    else None
  }

  function Hits(host: Host, pre: seq<Rule>, r: Rule, post: seq<Rule>, stream: seq<Arrival>, caches: Caches): seq<Hit>
    requires r.threshold.Some?
    decreases |stream|
  {
    if stream == [] then []
    else
      var next := Evaluate(host, pre + [r] + post, stream[0].ev, stream[0].clock, caches).caches;
      var hit := HitOf(host, pre, r, stream[0], caches);
      (if hit.Some? then [hit.value] else []) + Hits(host, pre, r, post, stream[1..], next)
  }

  // For each hit, whether the event's outcome was an alert of the rule.
  function HitAlerts(
    host: Host, pre: seq<Rule>, r: Rule, post: seq<Rule>, stream: seq<Arrival>, caches: Caches): seq<bool>
    requires r.threshold.Some?
    decreases |stream|
  {
    if stream == [] then []
    else
      var result := Evaluate(host, pre + [r] + post, stream[0].ev, stream[0].clock, caches);
      (if HitOf(host, pre, r, stream[0], caches).Some? then [!Unnamed(result.outcome, r.id)] else [])
      + HitAlerts(host, pre, r, post, stream[1..], result.caches)
  }

  lemma OthersHaveOtherIds(pre: seq<Rule>, r: Rule, post: seq<Rule>)
    requires DistinctIds(pre + [r] + post)
    ensures forall i :: 0 <= i < |pre| ==> pre[i].id != r.id
    ensures forall i :: 0 <= i < |post| ==> post[i].id != r.id
  {
    var rules := pre + [r] + post;
    assert rules[|pre|] == r;
    forall i | 0 <= i < |pre| ensures pre[i].id != r.id { assert rules[i] == pre[i]; }
    forall i | 0 <= i < |post| ensures post[i].id != r.id { assert rules[|pre| + 1 + i] == post[i]; }
  }

  lemma OwnAlertNames(r: Rule, ev: Event, urgent: bool)
    ensures !Unnamed(Done([AlertOf(r, ev)], urgent), r.id)
  {
    assert [AlertOf(r, ev)][0].ruleId == r.id;
  }

  // One event: only a hit moves the counters of r, by one Check, and only its alert names r.
  lemma OneEvent(host: Host, pre: seq<Rule>, r: Rule, post: seq<Rule>, a: Arrival, caches: Caches)
    requires DistinctIds(pre + [r] + post) && r.threshold.Some?
    ensures var result := Evaluate(host, pre + [r] + post, a.ev, a.clock, caches);
            var hit := HitOf(host, pre, r, a, caches);
            if hit.None? then
              RuleCache(result.caches, r.id) == RuleCache(caches, r.id) && Unnamed(result.outcome, r.id)
            else
              var c := Check(Lookup(RuleCache(caches, r.id), hit.value.group), hit.value.now, r.threshold.value.limit);
              && RuleCache(result.caches, r.id) == Store(RuleCache(caches, r.id), hit.value.group, c.counter)
              && (Unnamed(result.outcome, r.id) <==> !c.alert)
              && (c.alert ==> result.outcome == Done([AlertOf(r, a.ev)], r.level >= 10))
  {
    hide Entry, GroupKey, Check, Now, DistinctIds, Store, Lookup;
    OthersHaveOtherIds(pre, r, post);
    OwnAlertNames(r, a.ev, r.level >= 10);
    assert pre + ([r] + post) == pre + [r] + post && ([r] + post)[1..] == post;
    FrontDecides(host, pre, [r] + post, a.ev, a.clock, caches);
    AbsentRuleLeavesNoTrace(host, pre, a.ev, a.clock, caches, r.id);
    var front := Evaluate(host, pre, a.ev, a.clock, caches).caches;
    AbsentRuleLeavesNoTrace(host, post, a.ev, a.clock, front, r.id);
    AbsentRuleLeavesNoTrace(host, post, a.ev, a.clock, NextCaches(host, r, a.ev, a.clock, front), r.id);
  }

  /** In any list of rules with distinct ids and on any stream, a rule with a threshold alerts on
      exactly the hits on which its counters, running over its hits alone, say so. */
  lemma {:induction false} RuleRunsOnItsHits(
    host: Host, pre: seq<Rule>, r: Rule, post: seq<Rule>, stream: seq<Arrival>, caches: Caches)
    requires DistinctIds(pre + [r] + post) && r.threshold.Some?
    ensures var hits, limit := Hits(host, pre, r, post, stream, caches), r.threshold.value.limit;
            && HitAlerts(host, pre, r, post, stream, caches) == CacheAnswers(RuleCache(caches, r.id), hits, limit)
            && RuleCache(CachesAfter(host, pre + [r] + post, stream, caches), r.id) ==
               CacheAfter(RuleCache(caches, r.id), hits, limit)
    decreases |stream|
  {
    hide HitOf, Evaluate, Check, DistinctIds, RuleCache, Store, Lookup, Unnamed;
    if stream != [] {
      var result := Evaluate(host, pre + [r] + post, stream[0].ev, stream[0].clock, caches);
      var later := Hits(host, pre, r, post, stream[1..], result.caches);
      var hit := HitOf(host, pre, r, stream[0], caches);
      OneEvent(host, pre, r, post, stream[0], caches);
      RuleRunsOnItsHits(host, pre, r, post, stream[1..], result.caches);
      if hit.Some? {
        assert ([hit.value] + later)[1..] == later;
      } else {
        assert [] + later == later;
      }
    }
  }

  // The same for one group of the rule: its counter, and its alerts.
  lemma GroupRunsOnItsHits(
    host: Host, pre: seq<Rule>, r: Rule, post: seq<Rule>, stream: seq<Arrival>, caches: Caches, group: string)
    requires DistinctIds(pre + [r] + post) && r.threshold.Some?
    ensures var hits, limit := Hits(host, pre, r, post, stream, caches), r.threshold.value.limit;
            var alerts := HitAlerts(host, pre, r, post, stream, caches);
            && |alerts| == |hits|
            && AnswersOf(hits, alerts, group) ==
               Answers(CounterOf(caches, r.id, group), StampsOf(hits, group), limit)
            && CounterOf(CachesAfter(host, pre + [r] + post, stream, caches), r.id, group) ==
               After(CounterOf(caches, r.id, group), StampsOf(hits, group), limit)
  {
    hide Hits, HitAlerts, CachesAfter, DistinctIds, Check;
    RuleRunsOnItsHits(host, pre, r, post, stream, caches);
    var hits := Hits(host, pre, r, post, stream, caches);
    GroupsDoNotInterfere(RuleCache(caches, r.id), hits, r.threshold.value.limit, group);
  }

  /** For the engine, from empty counters, on any stream: the hits of each group are in exactly one
      alert of the rule each, `count` per alert, or discarded by expiry, or still counted; and the
      counter stays below `count`. */
  lemma EngineConservesHits(
    host: Host, pre: seq<Rule>, r: Rule, post: seq<Rule>, stream: seq<Arrival>, group: string)
    requires DistinctIds(pre + [r] + post) && r.threshold.Some? && r.threshold.value.limit.windowSeconds >= 0.0
    ensures var hits, limit := Hits(host, pre, r, post, stream, map[]), r.threshold.value.limit;
            var alerts := HitAlerts(host, pre, r, post, stream, map[]);
            var counter := CounterOf(CachesAfter(host, pre + [r] + post, stream, map[]), r.id, group);
            && |alerts| == |hits| && InRange(counter, limit)
            && |StampsOf(hits, group)| ==
               Quota(limit) * CountAlerts(AnswersOf(hits, alerts, group))
               + Discarded(None, StampsOf(hits, group), limit) + Held(counter)
  {
    hide Hits, HitAlerts, CachesAfter, DistinctIds, Check, Quota, Discarded, CountAlerts;
    var stamps := StampsOf(Hits(host, pre, r, post, stream, map[]), group);
    GroupRunsOnItsHits(host, pre, r, post, stream, map[], group);
    EventsAreConserved(None, stamps, r.threshold.value.limit);
    CounterStaysInRange(None, stamps, r.threshold.value.limit);
  }

  /** For the engine, from empty counters, on any stream: each alert of the rule in a group is raised by
      `count` consecutive hits of the group within the window of the first, none of them in another. */
  lemma EngineAlertsAreSound(
    host: Host, pre: seq<Rule>, r: Rule, post: seq<Rule>, stream: seq<Arrival>, group: string, i: nat)
    requires DistinctIds(pre + [r] + post) && r.threshold.Some? && r.threshold.value.limit.windowSeconds >= 0.0
    requires |HitAlerts(host, pre, r, post, stream, map[])| == |Hits(host, pre, r, post, stream, map[])|
    requires var hits := Hits(host, pre, r, post, stream, map[]);
             var alerts := AnswersOf(hits, HitAlerts(host, pre, r, post, stream, map[]), group);
             i < |alerts| && alerts[i]
    ensures var hits := Hits(host, pre, r, post, stream, map[]);
            var stamps, limit := StampsOf(hits, group), r.threshold.value.limit;
            var alerts := AnswersOf(hits, HitAlerts(host, pre, r, post, stream, map[]), group);
            && |stamps| == |alerts| && Quota(limit) <= i + 1
            && (forall j :: i + 1 - Quota(limit) <= j <= i ==>
                  Within(stamps[i + 1 - Quota(limit)], stamps[j], limit))
            && (forall j :: i + 1 - Quota(limit) <= j < i ==> !alerts[j])
  {
    hide Hits, HitAlerts, CachesAfter, DistinctIds, Check, Within, Answers;
    GroupRunsOnItsHits(host, pre, r, post, stream, map[], group);
    AlertsAreSound(StampsOf(Hits(host, pre, r, post, stream, map[]), group), r.threshold.value.limit, i);
  }

  // The event behind an alert of a group.
  lemma {:induction false} FindAlert(
    host: Host, pre: seq<Rule>, r: Rule, post: seq<Rule>, stream: seq<Arrival>, caches: Caches, group: string)
    returns (i: nat)
    requires DistinctIds(pre + [r] + post) && r.threshold.Some?
    requires true in Answers(CounterOf(caches, r.id, group), StampsOf(Hits(host, pre, r, post, stream, caches), group),
                             r.threshold.value.limit)
    ensures i < |stream| && GroupKey(host, stream[i].ev, r.threshold.value.groupBy) == group
    ensures Stream(host, pre + [r] + post, stream, caches)[i].0 == Done([AlertOf(r, stream[i].ev)], r.level >= 10)
    decreases |stream|
  {
    hide Evaluate, Entry, GroupKey, Now, Check, DistinctIds, Store, Unnamed;
    var result := Evaluate(host, pre + [r] + post, stream[0].ev, stream[0].clock, caches);
    var later := Hits(host, pre, r, post, stream[1..], result.caches);
    var hit := HitOf(host, pre, r, stream[0], caches);
    var limit := r.threshold.value.limit;
    var c := CounterOf(caches, r.id, group);
    OneEvent(host, pre, r, post, stream[0], caches);
    if hit.Some? && hit.value.group == group && Check(c, hit.value.now, limit).alert {
      return 0;
    }
    NextCounter(host, pre, r, post, stream[0], caches, group);
    if hit.Some? {
      assert ([hit.value] + later)[1..] == later;
      if hit.value.group == group {
        assert ([hit.value.now] + StampsOf(later, group))[1..] == StampsOf(later, group);
      } else {
        assert [] + StampsOf(later, group) == StampsOf(later, group);
      }
    } else {
      assert [] + later == later;
    }
    i := FindAlert(host, pre, r, post, stream[1..], result.caches, group);
    i := i + 1;
  }

  lemma NextCounter(
    host: Host, pre: seq<Rule>, r: Rule, post: seq<Rule>, a: Arrival, caches: Caches, group: string)
    requires DistinctIds(pre + [r] + post) && r.threshold.Some?
    ensures var hit := HitOf(host, pre, r, a, caches);
            CounterOf(Evaluate(host, pre + [r] + post, a.ev, a.clock, caches).caches, r.id, group) ==
            if hit.Some? && hit.value.group == group
            then Check(CounterOf(caches, r.id, group), hit.value.now, r.threshold.value.limit).counter
            else CounterOf(caches, r.id, group)
  {
    hide Evaluate, HitOf, Check, DistinctIds, Unnamed;
    OneEvent(host, pre, r, post, a, caches);
  }

  /** Detection bound for the engine: whatever happened before, and whatever other events come in
      between, 2 * count - 2 consecutive hits of a group within one window of each other make the rule
      raise an alert for that group. */
  lemma EngineDetectsBursts(
    host: Host, pre: seq<Rule>, r: Rule, post: seq<Rule>, past: seq<Arrival>, recent: seq<Arrival>, group: string)
    returns (i: nat)
    requires DistinctIds(pre + [r] + post) && r.threshold.Some?
    requires r.threshold.value.limit.count >= 2 && r.threshold.value.limit.windowSeconds >= 0.0
    requires var before := CachesAfter(host, pre + [r] + post, past, map[]);
             var stamps := StampsOf(Hits(host, pre, r, post, recent, before), group);
             Burst(stamps, r.threshold.value.limit) && |stamps| >= 2 * r.threshold.value.limit.count - 2
    ensures i < |recent| && GroupKey(host, recent[i].ev, r.threshold.value.groupBy) == group
    ensures Stream(host, pre + [r] + post, recent, CachesAfter(host, pre + [r] + post, past, map[]))[i].0 ==
            Done([AlertOf(r, recent[i].ev)], r.level >= 10)
  {
    hide Hits, Stream, CachesAfter, DistinctIds, Check, Burst, GroupKey, StampsOf;
    var before := CachesAfter(host, pre + [r] + post, past, map[]);
    var limit := r.threshold.value.limit;
    GroupRunsOnItsHits(host, pre, r, post, past, map[], group);
    CounterStaysInRange(None, StampsOf(Hits(host, pre, r, post, past, map[]), group), limit);
    BurstAlerts(CounterOf(before, r.id, group), StampsOf(Hits(host, pre, r, post, recent, before), group), limit);
    i := FindAlert(host, pre, r, post, recent, before, group);
  }

  // ---- Groups ----

  // A string converted to a string is itself.
  ghost predicate StringsAreText(host: Host) {
    forall s: string :: host.text(Str(s)) == s && host.operandText(One(Str(s))) == s
  }

  // The field is a text that cannot be mistaken for the end of another.
  predicate PlainText(fields: Fields, field: string) {
    field in fields && fields[field].Str? && fields[field].s != "" && '-' !in fields[field].s
  }

  lemma DashSplits(v: string, rest: string, v': string, rest': string)
    requires v + rest == v' + rest' && '-' !in v && '-' !in v'
    requires (rest == "" || rest[0] == '-') && (rest' == "" || rest'[0] == '-')
    ensures v == v' && rest == rest'
  {
    var whole := v + rest;
    assert forall i :: 0 <= i < |v| ==> whole[i] == v[i];
    assert forall i :: 0 <= i < |v'| ==> whole[i] == v'[i];
    assert |v| < |whole| ==> whole[|v|] == '-';
    assert |v'| < |whole| ==> whole[|v'|] == '-';
    assert v == whole[..|v|] && rest == whole[|v|..];
  }

  lemma PlainPart(host: Host, a: Fields, field: string)
    requires StringsAreText(host) && PlainText(a, field)
    ensures GroupPart(host, a, field) == a[field].s && Lookup(a, field) == Some(Str(a[field].s))
  {
    assert host.text(Str(a[field].s)) == a[field].s;
  }

  lemma {:induction false} JoinedIsInjective(host: Host, a: Fields, b: Fields, fields: seq<string>)
    requires StringsAreText(host)
    requires forall i :: 0 <= i < |fields| ==> PlainText(a, fields[i]) && PlainText(b, fields[i])
    ensures Joined(host, a, fields) == Joined(host, b, fields) <==>
            forall i :: 0 <= i < |fields| ==> Lookup(a, fields[i]) == Lookup(b, fields[i])
    ensures Joined(host, a, fields) == "" || Joined(host, a, fields)[0] == '-'
    ensures Joined(host, b, fields) == "" || Joined(host, b, fields)[0] == '-'
  {
    hide GroupPart, StringsAreText, Lookup;
    if fields != [] {
      var f, rest := fields[0], fields[1..];
      JoinedIsInjective(host, a, b, rest);
      PlainPart(host, a, f);
      PlainPart(host, b, f);
      OneFieldMore(a[f].s, Joined(host, a, rest), b[f].s, Joined(host, b, rest));
      assert forall i :: 0 < i < |fields| ==> fields[i] == rest[i - 1];
    }
  }

  lemma OneFieldMore(v: string, rest: string, v': string, rest': string)
    requires '-' !in v && '-' !in v'
    requires (rest == "" || rest[0] == '-') && (rest' == "" || rest'[0] == '-')
    ensures "-" + v + rest == "-" + v' + rest' <==> v == v' && rest == rest'
  {
    var x, y := "-" + v + rest, "-" + v' + rest';
    assert x[1..] == v + rest && y[1..] == v' + rest';
    if x == y { DashSplits(v, rest, v', rest'); }
  }

  /** Which events count together: for agent ids of one length and group fields that are texts without a
      dash, exactly those of the same agent with the same values in all group fields. */
  lemma GroupsCountApart(host: Host, one: Event, two: Event, groupBy: seq<string>)
    requires StringsAreText(host) && |one.agentId| == |two.agentId|
    requires one.payload.Some? && two.payload.Some?
    requires forall i :: 0 <= i < |groupBy| ==>
               PlainText(one.payload.value, groupBy[i]) && PlainText(two.payload.value, groupBy[i])
    ensures GroupKey(host, one, groupBy) == GroupKey(host, two, groupBy) <==>
              && one.agentId == two.agentId
              && forall i :: 0 <= i < |groupBy| ==>
                   Lookup(one.payload.value, groupBy[i]) == Lookup(two.payload.value, groupBy[i])
  {
    hide Joined;
    JoinedIsInjective(host, one.payload.value, two.payload.value, groupBy);
    var x, y := GroupKey(host, one, groupBy), GroupKey(host, two, groupBy);
    assert x[..|one.agentId|] == one.agentId && y[..|two.agentId|] == two.agentId;
    assert x[|one.agentId|..] == Joined(host, one.payload.value, groupBy);
    assert y[|two.agentId|..] == Joined(host, two.payload.value, groupBy);
  }

  /** With dashes in the values, events that differ in both fields can count together. */
  lemma DashesMixGroups(host: Host)
    requires StringsAreText(host)
    ensures var one := Event("agent", "", "", Some(map["x" := Str("a-b"), "y" := Str("c")]), None);
            var two := Event("agent", "", "", Some(map["x" := Str("a"), "y" := Str("b-c")]), None);
            GroupKey(host, one, ["x", "y"]) == GroupKey(host, two, ["x", "y"])
  {
    TwoFields(host, "a-b", "c");
    TwoFields(host, "a", "b-c");
    assert "-a-b-c" == "-" + "a-b" + "-" + "c" == "-" + "a" + "-" + "b-c";
  }

  lemma TwoFields(host: Host, x: string, y: string)
    requires StringsAreText(host) && x != "" && y != ""
    ensures Joined(host, map["x" := Str(x), "y" := Str(y)], ["x", "y"]) == "-" + x + "-" + y
  {
    var fields := map["x" := Str(x), "y" := Str(y)];
    assert host.text(Str(x)) == x && host.text(Str(y)) == y;
    assert GroupPart(host, fields, "x") == x && GroupPart(host, fields, "y") == y;
    hide GroupPart;
    assert ["x", "y"][1..] == ["y"] && ["y"][1..] == [];
    assert Joined(host, fields, ["y"]) == "-" + y + "" == "-" + y;
    assert "-" + x + ("-" + y) == "-" + x + "-" + y;
  }

  /** An event whose group field is missing, empty, zero, false or null counts with those where it is
      "unknown". */
  lemma {:induction false} MissingIsUnknown(host: Host, fields: Fields, field: string, groupBy: seq<string>)
    requires StringsAreText(host)
    requires field in fields ==> fields[field] in {Str(""), Num(0.0), Bool(false), Null}
    ensures Joined(host, fields, groupBy) == Joined(host, fields[field := Str("unknown")], groupBy)
  {
    if groupBy != [] {
      MissingIsUnknown(host, fields, field, groupBy[1..]);
      assert host.text(Str("unknown")) == "unknown";
    }
  }

  /** A hit is counted at the event's own time, or at the engine's if it has none. */
  lemma HitsAreTimed(host: Host, pre: seq<Rule>, r: Rule, a: Arrival, caches: Caches)
    requires r.threshold.Some? && HitOf(host, pre, r, a, caches).Some?
    ensures var hit := HitOf(host, pre, r, a, caches).value;
            match a.ev.timestamp case Some(stamp) => hit.now == stamp case None => hit.now == At(a.clock)
  {
  }

  // ---- The shipped rules, in any order ----

  function Again(a: Arrival, n: nat): seq<Arrival> {
    seq(n, _ => a)
  }

  lemma {:induction false} FailingRulesPass(host: Host, rules: seq<Rule>, a: Arrival, caches: Caches)
    requires forall i :: 0 <= i < |rules| ==> Entry(host, rules[i], a.ev).Fails?
    ensures Evaluate(host, rules, a.ev, a.clock, caches) == Result(caches, Done([], false), [])
    decreases |rules|
  {
    hide Entry, Check, GroupKey;
    if rules != [] {
      FailingRulesPass(host, rules[1..], a, caches);
    }
  }

  function TimesOf(stream: seq<Arrival>): seq<Stamp> {
    seq(|stream|, i requires 0 <= i < |stream| => Now(stream[i].ev, stream[i].clock))
  }

  // When no rule in front matches the events of one group and the rule does, every event is a hit.
  lemma {:induction false} AllHit(
    host: Host, pre: seq<Rule>, r: Rule, post: seq<Rule>, stream: seq<Arrival>, caches: Caches, group: string)
    requires r.threshold.Some?
    requires forall k :: 0 <= k < |stream| ==>
               Entry(host, r, stream[k].ev).Holds? && GroupKey(host, stream[k].ev, r.threshold.value.groupBy) == group
    requires forall k, i :: 0 <= k < |stream| && 0 <= i < |pre| ==> Entry(host, pre[i], stream[k].ev).Fails?
    ensures StampsOf(Hits(host, pre, r, post, stream, caches), group) == TimesOf(stream)
    decreases |stream|
  {
    hide Entry, Evaluate, GroupKey, Now;
    if stream != [] {
      var a := stream[0];
      var next := Evaluate(host, pre + [r] + post, a.ev, a.clock, caches).caches;
      var later := Hits(host, pre, r, post, stream[1..], next);
      var hit := Hit(group, Now(a.ev, a.clock));
      FailingRulesPass(host, pre, a, caches);
      AllHit(host, pre, r, post, stream[1..], next, group);
      assert ([hit] + later)[1..] == later;
      assert [hit.now] + TimesOf(stream[1..]) == TimesOf(stream);
    }
  }

  // Some stream, from empty counters, makes the rule of this id alert.
  ghost predicate CanAlert(host: Host, rules: seq<Rule>, id: string) {
    exists stream: seq<Arrival>, i: nat :: i < |stream| && !Unnamed(Stream(host, rules, stream, map[])[i].0, id)
  }

  lemma SameTimeIsWithin(s: Stamp, limit: Limit)
    requires limit.windowSeconds >= 0.0
    ensures Within(s, s, limit)
  {
  }

  lemma RepetitionAlerts(host: Host, pre: seq<Rule>, r: Rule, post: seq<Rule>, a: Arrival)
    requires DistinctIds(pre + [r] + post) && r.threshold.Some?
    requires r.threshold.value.limit.count >= 2 && r.threshold.value.limit.windowSeconds >= 0.0
    requires Entry(host, r, a.ev).Holds? && forall i :: 0 <= i < |pre| ==> Entry(host, pre[i], a.ev).Fails?
    ensures CanAlert(host, pre + [r] + post, r.id)
  {
    hide Entry, Hits, Stream, DistinctIds, GroupKey, Now;
    var limit := r.threshold.value.limit;
    var n := 2 * limit.count - 2;
    var group := GroupKey(host, a.ev, r.threshold.value.groupBy);
    AllHit(host, pre, r, post, Again(a, n), map[], group);
    SameTimeIsWithin(Now(a.ev, a.clock), limit);
    assert CachesAfter(host, pre + [r] + post, [], map[]) == map[];
    var i := EngineDetectsBursts(host, pre, r, post, [], Again(a, n), group);
    OwnAlertNames(r, a.ev, r.level >= 10);
  }

  /** When does the brute-force rule fire? For every list of rules with distinct ids, and every event it
      matches on which all rules in front of it fail, rule 4001 aside: some stream makes it alert
      exactly if rule 4001 is not in front of it. */
  lemma BruteForceRuleFiresIff(host: Host, pre: seq<Rule>, post: seq<Rule>, a: Arrival)
    requires DistinctIds(pre + [RULE_4002] + post) && Entry(host, RULE_4002, a.ev).Holds?
    requires forall i :: 0 <= i < |pre| && pre[i] != RULE_4001 ==> Entry(host, pre[i], a.ev).Fails?
    ensures CanAlert(host, pre + [RULE_4002] + post, "4002") <==> RULE_4001 !in pre
  {
    hide Entry, Stream, DistinctIds, Unnamed, CachesAfter;
    if RULE_4001 !in pre {
      RepetitionAlerts(host, pre, RULE_4002, post, a);
    } else if CanAlert(host, pre + [RULE_4002] + post, "4002") {
      var k :| 0 <= k < |pre| && pre[k] == RULE_4001;
      var front, mid := pre[..k], pre[k + 1..];
      assert front + [RULE_4001] + mid + [RULE_4002] + post == pre + [RULE_4002] + post;
      var stream: seq<Arrival>, i: nat :| i < |stream| &&
        !Unnamed(Stream(host, pre + [RULE_4002] + post, stream, map[])[i].0, "4002");
      BruteForceRuleIsDead(host, front, mid, post, stream);
    }
  }

  const FAILED_LOGIN := Event("agent", "log_monitoring", "",
                              Some(map["action" := Str("Failed password"), "src_ip" := Str("192.0.2.1")]), None)

  /** The two rules alone: in one order the brute-force rule can fire, in the other it cannot. */
  lemma OrderDecidesBruteForce(host: Host)
    requires StringsAreText(host)
    ensures CanAlert(host, [RULE_4002, RULE_4001], "4002") && !CanAlert(host, [RULE_4001, RULE_4002], "4002")
  {
    var a := Arrival(FAILED_LOGIN, 0);
    var text := "Failed password";
    assert host.text(Str(text)) == text && host.operandText(One(Str(text))) == text;
    assert text <= text[0..];
    assert Judge(host, FAILED_PASSWORD, FAILED_LOGIN.payload).Holds?;
    assert [FAILED_PASSWORD][1..] == [];
    assert JudgeAll(host, [FAILED_PASSWORD], FAILED_LOGIN.payload).Holds?;
    assert Entry(host, RULE_4002, FAILED_LOGIN).Holds?;
    hide Entry, CanAlert;
    BruteForceRuleFiresIff(host, [], [RULE_4001], a);
    BruteForceRuleFiresIff(host, [RULE_4001], [], a);
    assert [] + [RULE_4002] + [RULE_4001] == [RULE_4002, RULE_4001];
    assert [RULE_4001] + [RULE_4002] + [] == [RULE_4001, RULE_4002];
  }

  // ---- From records to alerts ----

  // A record as the engine should see it: its type, or else its data type; its metadata, or else its
  // payload; its own time, or else its arrival.
  function AsEvent(raw: RawRecord, agentId: string, arrival: int): Event {
    Event(agentId, if raw.kind != "" then raw.kind else raw.dataType, "",
          if raw.metadata.Some? then raw.metadata else raw.payload,
          Some(if raw.timestamp.Some? then raw.timestamp.value else At(arrival)))
  }

  /** Detection from the records of an agent: if they carry a type, match a rule but no rule
      in front of it, fall into one group, and are dated within the window of each other, however late
      they are evaluated, then 2 * count - 2 of them raise an alert that names the agent, the rule and
      the contents of one of them. */
  lemma RecordsAreDetected(
    host: Host, pre: seq<Rule>, r: Rule, post: seq<Rule>, past: seq<Arrival>, group: string,
    raws: seq<RawRecord>, agentId: string, arrivals: seq<int>, clocks: seq<int>, stream: seq<Arrival>)
    returns (i: nat)
    requires DistinctIds(pre + [r] + post) && r.threshold.Some?
    requires var limit := r.threshold.value.limit;
             limit.count >= 2 && limit.windowSeconds >= 0.0 && |raws| >= 2 * limit.count - 2
    requires agentId != "" && |arrivals| == |clocks| == |stream| == |raws|
    requires forall k :: 0 <= k < |raws| ==>
               && (raws[k].kind != "" || raws[k].dataType != "")
               && (ParseAgentData(raws[k], agentId, arrivals[k]).Some? ==>
                     stream[k] == Arrival(ParseAgentData(raws[k], agentId, arrivals[k]).value, clocks[k]))
               && Entry(host, r, AsEvent(raws[k], agentId, arrivals[k])).Holds?
               && GroupKey(host, AsEvent(raws[k], agentId, arrivals[k]), r.threshold.value.groupBy) == group
               && forall p :: 0 <= p < |pre| ==> Entry(host, pre[p], AsEvent(raws[k], agentId, arrivals[k])).Fails?
    requires forall k, j :: 0 <= k < |raws| && 0 <= j < |raws| ==>
               Within(AsEvent(raws[k], agentId, arrivals[k]).timestamp.value,
                      AsEvent(raws[j], agentId, arrivals[j]).timestamp.value, r.threshold.value.limit)
    ensures i < |raws|
    ensures Stream(host, pre + [r] + post, stream, CachesAfter(host, pre + [r] + post, past, map[]))[i].0 ==
            var seen := AsEvent(raws[i], agentId, arrivals[i]);
            Done([Alert(agentId, seen.kind, r.id, r.name, r.level, r.category, seen.payload)], r.level >= 10)
  {
    hide Entry, Hits, Stream, CachesAfter, DistinctIds, GroupKey, Within;
    forall k | 0 <= k < |raws| ensures stream[k].ev == AsEvent(raws[k], agentId, arrivals[k]) {
    }
    var before := CachesAfter(host, pre + [r] + post, past, map[]);
    AllHit(host, pre, r, post, stream, before, group);
    forall k | 0 <= k < |raws|
      ensures TimesOf(stream)[k] == AsEvent(raws[k], agentId, arrivals[k]).timestamp.value
    {
    }
    i := EngineDetectsBursts(host, pre, r, post, past, stream, group);
  }
}
