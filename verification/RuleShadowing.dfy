/** Rules that can never raise an alert because an earlier rule always gets there first. */
module RuleShadowing {
  import opened Shared
  import opened Threshold
  import opened RuleEngine

  // a has no threshold, fits every type b fits, and asks for nothing b does not ask for.
  predicate Shadows(a: Rule, b: Rule) {
    && a.threshold.None?
    && (RuleType(a) == "" || RuleType(a) == RuleType(b))
    && (forall i :: 0 <= i < |a.conditions| ==> a.conditions[i] in b.conditions)
  }

  // No pattern of the rule makes `new RegExp` throw.
  predicate AllCompile(host: Host, r: Rule) {
    forall i :: 0 <= i < |r.conditions| && r.conditions[i].operator == "regex" ==>
      host.compiles(host.operandText(r.conditions[i].value))
  }

  lemma {:induction false} HoldsIffAllHold(host: Host, cs: seq<Condition>, payload: Option<Fields>)
    ensures JudgeAll(host, cs, payload).Holds? <==>
            forall i :: 0 <= i < |cs| ==> Judge(host, cs[i], payload).Holds?
    ensures JudgeAll(host, cs, payload).Throws? <==>
            exists i :: 0 <= i < |cs| && Judge(host, cs[i], payload).Throws?
                        && forall j :: 0 <= j < i ==> Judge(host, cs[j], payload).Holds?
  {
    hide Judge;
    if cs != [] {
      HoldsIffAllHold(host, cs[1..], payload);
      assert forall i :: 0 < i < |cs| ==> cs[i] == cs[1..][i - 1];
      if i :| 0 <= i < |cs| - 1 && Judge(host, cs[1..][i], payload).Throws?
              && forall j :: 0 <= j < i ==> Judge(host, cs[1..][j], payload).Holds? {
        assert cs[i + 1] == cs[1..][i];
      }
      if i :| 0 < i < |cs| && Judge(host, cs[i], payload).Throws?
              && forall j :: 0 <= j < i ==> Judge(host, cs[j], payload).Holds? {
        assert cs[1..][i - 1] == cs[i];
        assert forall j :: 0 <= j < i - 1 ==> cs[1..][j] == cs[j + 1];
      }
    }
  }

  /** When a rule matches an event: the first of its three type fields that is set, if any, is the type
      of the event, or its data type if it has none; every condition is met by its field of the payload;
      and there is a payload, unless nothing is asked of it. */
  lemma MatchMeans(host: Host, r: Rule, ev: Event)
    ensures var wanted := if r.kind != "" then r.kind else if r.dataType != "" then r.dataType else r.dataSource;
            var actual := if ev.kind != "" then ev.kind else ev.dataType;
            Entry(host, r, ev).Holds? <==>
              && (wanted == "" || wanted == actual)
              && (ev.payload.None? ==> r.conditions == [] && (r.threshold.None? || r.threshold.value.groupBy == []))
              && (ev.payload.Some? ==>
                    forall i :: 0 <= i < |r.conditions| ==>
                      var c, fields := r.conditions[i], ev.payload.value;
                      Meets(host, if c.field in fields then Some(fields[c.field]) else None, c.operator, c.value))
  {
    hide EvaluateCondition, JudgeAll;
    HoldsIffAllHold(host, r.conditions, ev.payload);
    if ev.payload.Some? {
      forall i | 0 <= i < |r.conditions|
        ensures var c, fields := r.conditions[i], ev.payload.value;
                Judge(host, c, ev.payload).Holds? <==>
                Meets(host, if c.field in fields then Some(fields[c.field]) else None, c.operator, c.value)
      {
      }
    } else if r.conditions != [] {
      assert Judge(host, r.conditions[0], ev.payload).Throws?;
    }
  }

  lemma {:induction false} CompiledNeverThrows(host: Host, cs: seq<Condition>, payload: Option<Fields>)
    requires forall i :: 0 <= i < |cs| && cs[i].operator == "regex" ==> host.compiles(host.operandText(cs[i].value))
    requires payload.Some?
    ensures !JudgeAll(host, cs, payload).Throws?
  {
    hide Includes, Contains, IsLocal, StrictlyEqual;
    if cs != [] {
      CompiledNeverThrows(host, cs[1..], payload);
    }
  }

  // Without a payload a condition throws; it does not fail.
  lemma NoPayloadNeverFails(host: Host, cs: seq<Condition>)
    ensures !JudgeAll(host, cs, None).Fails?
  {
  }

  lemma ShadowedNeverMatches(host: Host, a: Rule, b: Rule, ev: Event)
    requires Shadows(a, b) && Entry(host, a, ev).Fails?
    ensures !Entry(host, b, ev).Holds?
    ensures AllCompile(host, b) ==> Entry(host, b, ev).Fails?
  {
    hide JudgeAll, Judge;
    if TypeFits(b, ev) {
      NoPayloadNeverFails(host, a.conditions);
      HoldsIffAllHold(host, a.conditions, ev.payload);
      HoldsIffAllHold(host, b.conditions, ev.payload);
      if AllCompile(host, b) { CompiledNeverThrows(host, b.conditions, ev.payload); }
    }
  }

  // A rule that fails on an event can be dropped for it, wherever it stands.
  lemma {:induction false} FailingRuleCanGo(
    host: Host, before: seq<Rule>, b: Rule, after: seq<Rule>, ev: Event, clock: int, caches: Caches)
    requires Entry(host, b, ev).Fails?
    ensures Evaluate(host, before + [b] + after, ev, clock, caches) == Evaluate(host, before + after, ev, clock, caches)
    decreases |before|
  {
    hide Entry, Check, CounterOf, GroupKey, Now;
    if before == [] {
      assert (before + [b] + after)[1..] == after && before + after == after;
    } else {
      var rest := before[1..];
      assert (before + [b] + after)[1..] == rest + [b] + after && (before + after)[1..] == rest + after;
      FailingRuleCanGo(host, rest, b, after, ev, clock, caches);
      FailingRuleCanGo(host, rest, b, after, ev, clock, NextCaches(host, before[0], ev, clock, caches));
    }
  }

  lemma {:induction false} ShadowedRuleCanGo(
    host: Host, pre: seq<Rule>, a: Rule, mid: seq<Rule>, b: Rule, post: seq<Rule>,
    ev: Event, clock: int, caches: Caches)
    requires Shadows(a, b) && (Entry(host, a, ev).Fails? ==> Entry(host, b, ev).Fails?)
    ensures Evaluate(host, pre + [a] + mid + [b] + post, ev, clock, caches) ==
            Evaluate(host, pre + [a] + mid + post, ev, clock, caches)
    decreases |pre|
  {
    hide Entry, Check, CounterOf, GroupKey, Now;
    var with, without := pre + [a] + mid + [b] + post, pre + [a] + mid + post;
    if pre == [] {
      assert with[1..] == mid + [b] + post && without[1..] == mid + post;
      if Entry(host, a, ev).Fails? {
        FailingRuleCanGo(host, mid, b, post, ev, clock, caches);
      }
    } else {
      var rest := pre[1..];
      assert with[1..] == rest + [a] + mid + [b] + post && without[1..] == rest + [a] + mid + post;
      ShadowedRuleCanGo(host, rest, a, mid, b, post, ev, clock, caches);
      ShadowedRuleCanGo(host, rest, a, mid, b, post, ev, clock, NextCaches(host, pre[0], ev, clock, caches));
    }
  }

  // ---- Streams ----

  datatype Arrival = Arrival(ev: Event, clock: int)

  // For each event of a stream: the outcome, and the alerts pushed.
  function Stream(host: Host, rules: seq<Rule>, stream: seq<Arrival>, caches: Caches): (out: seq<(Outcome, seq<Alert>)>)
    ensures |out| == |stream|
    decreases |stream|
  {
    if stream == [] then []
    else
      var r := Evaluate(host, rules, stream[0].ev, stream[0].clock, caches);
      [(r.outcome, r.notified)] + Stream(host, rules, stream[1..], r.caches)
  }

  function CachesAfter(host: Host, rules: seq<Rule>, stream: seq<Arrival>, caches: Caches): Caches
    decreases |stream|
  {
    if stream == [] then caches
    else
      CachesAfter(host, rules, stream[1..],
                  Evaluate(host, rules, stream[0].ev, stream[0].clock, caches).caches)
  }

  /** Shadowed-rule elimination preserves meaning: deleting a later rule that an earlier one
      shadows leaves every outcome, push and counter of every event stream as it was, provided its
      patterns compile. */
  lemma {:induction false} DeletingShadowedRuleIsInvisible(
    host: Host, pre: seq<Rule>, a: Rule, mid: seq<Rule>, b: Rule, post: seq<Rule>, stream: seq<Arrival>, caches: Caches)
    requires Shadows(a, b) && AllCompile(host, b)
    ensures Stream(host, pre + [a] + mid + [b] + post, stream, caches) ==
            Stream(host, pre + [a] + mid + post, stream, caches)
    ensures CachesAfter(host, pre + [a] + mid + [b] + post, stream, caches) ==
            CachesAfter(host, pre + [a] + mid + post, stream, caches)
    decreases |stream|
  {
    hide Evaluate, Shadows, AllCompile;
    if stream != [] {
      var ev := stream[0].ev;
      if Entry(host, a, ev).Fails? { ShadowedNeverMatches(host, a, b, ev); }
      ShadowedRuleCanGo(host, pre, a, mid, b, post, ev, stream[0].clock, caches);
      DeletingShadowedRuleIsInvisible(host, pre, a, mid, b, post, stream[1..],
        Evaluate(host, pre + [a] + mid + post, ev, stream[0].clock, caches).caches);
    }
  }

  // No alert of the outcome names rule id.
  predicate Unnamed(o: Outcome, id: string) {
    o.Done? ==> forall i :: 0 <= i < |o.alerts| ==> o.alerts[i].ruleId != id
  }

  lemma {:induction false} AbsentRuleLeavesNoTrace(
    host: Host, rules: seq<Rule>, ev: Event, clock: int, caches: Caches, id: string)
    requires forall i :: 0 <= i < |rules| ==> rules[i].id != id
    ensures var r := Evaluate(host, rules, ev, clock, caches);
            RuleCache(r.caches, id) == RuleCache(caches, id) && Unnamed(r.outcome, id)
    decreases |rules|
  {
    hide Entry, Check, CounterOf, GroupKey, Now;
    if rules != [] {
      AbsentRuleLeavesNoTrace(host, rules[1..], ev, clock, caches, id);
      AbsentRuleLeavesNoTrace(host, rules[1..], ev, clock, NextCaches(host, rules[0], ev, clock, caches), id);
    }
  }

  /** In every run from empty counters, a shadowed rule raises no alert and never counts anything. */
  lemma {:induction false} ShadowedRuleNeverCounts(
    host: Host, pre: seq<Rule>, a: Rule, mid: seq<Rule>, b: Rule, post: seq<Rule>, stream: seq<Arrival>, caches: Caches)
    requires Shadows(a, b) && AllCompile(host, b)
    requires DistinctIds(pre + [a] + mid + [b] + post)
    requires RuleCache(caches, b.id) == map[]
    ensures var rules := pre + [a] + mid + [b] + post;
            && RuleCache(CachesAfter(host, rules, stream, caches), b.id) == map[]
            && forall i :: 0 <= i < |stream| ==> Unnamed(Stream(host, rules, stream, caches)[i].0, b.id)
    decreases |stream|
  {
    hide Evaluate, Shadows, AllCompile;
    var rules, kept := pre + [a] + mid + [b] + post, pre + [a] + mid + post;
    var p := |pre| + 1 + |mid|;
    assert rules[p] == b;
    forall i | 0 <= i < |kept| ensures kept[i].id != b.id {
      assert kept[i] == if i < p then rules[i] else rules[i + 1];
    }
    if stream != [] {
      var ev := stream[0].ev;
      if Entry(host, a, ev).Fails? { ShadowedNeverMatches(host, a, b, ev); }
      ShadowedRuleCanGo(host, pre, a, mid, b, post, ev, stream[0].clock, caches);
      AbsentRuleLeavesNoTrace(host, kept, ev, stream[0].clock, caches, b.id);
      ShadowedRuleNeverCounts(host, pre, a, mid, b, post, stream[1..],
        Evaluate(host, rules, ev, stream[0].clock, caches).caches);
    }
  }

  // ---- When a pattern does not compile ----

  /** Without the proviso on patterns: one event tells the two lists apart exactly when it gets past
      every rule in front of the shadowed one, then meets a pattern there that throws, and the rules
      behind it would not have thrown as well. What is lost may be an alert of one of those rules. */
  lemma DeletionIsVisibleIff(
    host: Host, pre: seq<Rule>, a: Rule, mid: seq<Rule>, b: Rule, post: seq<Rule>,
    ev: Event, clock: int, caches: Caches)
    requires Shadows(a, b)
    ensures var front := Evaluate(host, pre + [a] + mid, ev, clock, caches);
            Evaluate(host, pre + [a] + mid + [b] + post, ev, clock, caches).outcome !=
            Evaluate(host, pre + [a] + mid + post, ev, clock, caches).outcome <==>
              && front.outcome == Done([], false)
              && Entry(host, b, ev).Throws?
              && Evaluate(host, post, ev, clock, front.caches).outcome != Threw
  {
    hide Evaluate, Entry;
    var start := pre + [a] + mid;
    var front := Evaluate(host, start, ev, clock, caches);
    FrontDecides(host, start, post, ev, clock, caches);
    FrontDecides(host, start, [b] + post, ev, clock, caches);
    assert start + ([b] + post) == start + [b] + post;
    FirstRuleOutcome(host, b, post, ev, clock, front.caches);
    if Entry(host, b, ev).Holds? {
      if Entry(host, a, ev).Fails? {
        ShadowedNeverMatches(host, a, b, ev);
      } else {
        EarlierRuleStops(host, pre, a, mid, ev, clock, caches);
      }
    }
  }

  // The rules behind only matter when nothing in front stopped the walk.
  lemma {:induction false} FrontDecides(
    host: Host, rules: seq<Rule>, post: seq<Rule>, ev: Event, clock: int, caches: Caches)
    ensures var r := Evaluate(host, rules, ev, clock, caches);
            Evaluate(host, rules + post, ev, clock, caches) ==
              if r.outcome == Done([], false) then Evaluate(host, post, ev, clock, r.caches) else r
    decreases |rules|
  {
    hide Entry, Check, CounterOf, GroupKey, Now;
    if rules == [] {
      assert rules + post == post;
    } else {
      assert (rules + post)[1..] == rules[1..] + post;
      FrontDecides(host, rules[1..], post, ev, clock, caches);
      FrontDecides(host, rules[1..], post, ev, clock, NextCaches(host, rules[0], ev, clock, caches));
    }
  }

  lemma FirstRuleOutcome(host: Host, b: Rule, post: seq<Rule>, ev: Event, clock: int, caches: Caches)
    ensures var r := Evaluate(host, [b] + post, ev, clock, caches);
            && (Entry(host, b, ev).Throws? ==> r.outcome == Threw)
            && (Entry(host, b, ev).Fails? ==> r == Evaluate(host, post, ev, clock, caches))
  {
    hide Entry;
    assert ([b] + post)[1..] == post;
  }

  lemma {:induction false} EarlierRuleStops(
    host: Host, pre: seq<Rule>, a: Rule, mid: seq<Rule>, ev: Event, clock: int, caches: Caches)
    requires a.threshold.None? && !Entry(host, a, ev).Fails?
    ensures Evaluate(host, pre + [a] + mid, ev, clock, caches).outcome != Done([], false)
    decreases |pre|
  {
    hide Entry, Check, CounterOf, GroupKey, Now;
    var rules := pre + [a] + mid;
    if pre != [] {
      assert rules[1..] == pre[1..] + [a] + mid;
      EarlierRuleStops(host, pre[1..], a, mid, ev, clock, caches);
      EarlierRuleStops(host, pre[1..], a, mid, ev, clock, NextCaches(host, pre[0], ev, clock, caches));
    }
  }

  // A rule list in which it happens: the second rule's pattern is no regular expression.
  const IS_ROOT := Condition("user", "equals", One(Str("root")))
  const BAD_PATTERN := Condition("user", "regex", One(Str("(")))

  const FIRST_RULE := Rule("1", "root", 5, "auth", "", "", "", [IS_ROOT], None)
  const SHADOWED_RULE := Rule("2", "root again", 5, "auth", "", "", "", [BAD_PATTERN, IS_ROOT], None)
  const LAST_RULE := Rule("3", "any user", 10, "auth", "", "", "", [], None)

  const ALICE := Event("agent", "log_monitoring", "", Some(map["user" := Str("alice")]), None)

  /** An alert is lost to a shadowed rule that cannot even match: its pattern throws before the rule
      behind it is reached. */
  lemma BadPatternHidesAlert(host: Host, clock: int)
    requires !host.compiles(host.operandText(BAD_PATTERN.value))
    ensures Shadows(FIRST_RULE, SHADOWED_RULE)
    ensures Evaluate(host, [FIRST_RULE, LAST_RULE], ALICE, clock, map[]).outcome ==
            Done([AlertOf(LAST_RULE, ALICE)], true)
    ensures Evaluate(host, [FIRST_RULE, SHADOWED_RULE, LAST_RULE], ALICE, clock, map[]).outcome == Threw
  {
    assert IS_ROOT in SHADOWED_RULE.conditions;
    assert [FIRST_RULE, LAST_RULE][1..] == [LAST_RULE];
    assert [FIRST_RULE, SHADOWED_RULE, LAST_RULE][1..] == [SHADOWED_RULE, LAST_RULE];
    assert Judge(host, IS_ROOT, ALICE.payload).Fails? && Judge(host, BAD_PATTERN, ALICE.payload).Throws?;
    assert Entry(host, FIRST_RULE, ALICE).Fails? && Entry(host, LAST_RULE, ALICE).Holds?;
    assert Entry(host, SHADOWED_RULE, ALICE).Throws?;
    hide Entry;
    FirstRuleOutcome(host, FIRST_RULE, [LAST_RULE], ALICE, clock, map[]);
    FirstRuleOutcome(host, FIRST_RULE, [SHADOWED_RULE, LAST_RULE], ALICE, clock, map[]);
    FirstRuleOutcome(host, SHADOWED_RULE, [LAST_RULE], ALICE, clock, map[]);
    assert [SHADOWED_RULE] + [LAST_RULE] == [SHADOWED_RULE, LAST_RULE];
    assert [FIRST_RULE] + [LAST_RULE] == [FIRST_RULE, LAST_RULE];
    assert [FIRST_RULE] + [SHADOWED_RULE, LAST_RULE] == [FIRST_RULE, SHADOWED_RULE, LAST_RULE];
  }

  // ---- The shipped rules ----

  const FAILED_PASSWORD := Condition("action", "contains", One(Str("Failed password")))

  const RULE_4001 := Rule("4001", "SSH failed login attempt", 5, "auth", "log_monitoring", "", "",
                          [FAILED_PASSWORD], None)

  const RULE_4002 := Rule("4002", "SSH brute force attack", 10, "auth", "log_monitoring", "", "",
                          [FAILED_PASSWORD], Some(GroupLimit(Limit(8, 60.0), ["src_ip"])))

  /** Loaded in file order, the brute-force rule never raises an alert, for any stream. */
  lemma BruteForceRuleIsDead(host: Host, pre: seq<Rule>, mid: seq<Rule>, post: seq<Rule>, stream: seq<Arrival>)
    requires DistinctIds(pre + [RULE_4001] + mid + [RULE_4002] + post)
    ensures var rules := pre + [RULE_4001] + mid + [RULE_4002] + post;
            && RuleCache(CachesAfter(host, rules, stream, map[]), "4002") == map[]
            && Stream(host, rules, stream, map[]) == Stream(host, pre + [RULE_4001] + mid + post, stream, map[])
            && forall i :: 0 <= i < |stream| ==> Unnamed(Stream(host, rules, stream, map[])[i].0, "4002")
  {
    hide Stream, CachesAfter, Unnamed;
    assert FAILED_PASSWORD in RULE_4002.conditions;
    ShadowedRuleNeverCounts(host, pre, RULE_4001, mid, RULE_4002, post, stream, map[]);
    DeletingShadowedRuleIsInvisible(host, pre, RULE_4001, mid, RULE_4002, post, stream, map[]);
  }
}
