/** The worker's rule engine: which rule of an ordered list raises an alert for an event, and what
    that does to the threshold counters. */
module RuleEngine {
  import opened Shared
  import opened Threshold

  // A JSON value. Other stands for arrays and objects, which are never === to a parsed one.
  datatype Value = Str(s: string) | Num(n: real) | Bool(b: bool) | Null | Other(id: nat)

  // The value in a rule's condition; only the list operators look at Many.
  datatype Operand = One(value: Value) | Many(values: seq<Value>)

  datatype Condition = Condition(field: string, operator: string, value: Operand)

  datatype GroupLimit = GroupLimit(limit: Limit, groupBy: seq<string>)

  // An absent type, data_type or data_source is "".
  datatype Rule = Rule(id: string, name: string, level: int, category: string,
                       kind: string, dataType: string, dataSource: string,
                       conditions: seq<Condition>, threshold: Option<GroupLimit>)

  type Fields = map<string, Value>

  // payload is None for a record that carried none: looking a field up in it throws.
  datatype Event = Event(agentId: string, kind: string, dataType: string,
                         payload: Option<Fields>, timestamp: Option<Stamp>)

  datatype Alert = Alert(agentId: string, kind: string, ruleId: string, ruleName: string,
                         level: int, category: string, payload: Option<Fields>)

  // JavaScript's conversions and its regular expressions; number is None for NaN.
  datatype Host = Host(
    text: Value -> string, number: Value -> Option<real>,
    operandText: Operand -> string, operandNumber: Operand -> Option<real>,
    compiles: string -> bool, test: (string, string) -> bool)

  // ---- Conditions ----

  datatype Verdict = Holds | Fails | Throws

  function Truth(b: bool): Verdict {
    if b then Holds else Fails
  }

  predicate StrictlyEqual(a: Value, b: Value) {
    a == b && !a.Other?
  }

  predicate Includes(values: seq<Value>, v: Value) {
    exists i :: 0 <= i < |values| && StrictlyEqual(values[i], v)
  }

  predicate StartsWith(s: string, prefix: string) {
    prefix <= s
  }

  const LOCAL_PREFIXES: seq<string> := [
    "192.168.", "10.", "127.0.0.1", "172.16.", "172.17.", "172.18.", "172.19.", "172.20.", "172.21.",
    "172.22.", "172.23.", "172.24.", "172.25.", "172.26.", "172.27.", "172.28.", "172.29.", "172.30.", "172.31."]

  predicate IsLocal(address: string) {
    exists i :: 0 <= i < |LOCAL_PREFIXES| && StartsWith(address, LOCAL_PREFIXES[i])
  }

  function EvaluateCondition(host: Host, data: Option<Value>, operator: string, rule: Operand): Verdict {
    if data.None? || data.value.Null? then Fails
    else
      var d := data.value;
      match operator
      case "equals" => Truth(rule.One? && StrictlyEqual(d, rule.value))
      case "not_equals" => Truth(!(rule.One? && StrictlyEqual(d, rule.value)))
      case "in" => Truth(rule.Many? && Includes(rule.values, d))
      case "not_in" => Truth(rule.Many? && !Includes(rule.values, d))
      case "contains" => Truth(Contains(host.text(d), host.operandText(rule)))
      case "regex" =>
        if !host.compiles(host.operandText(rule)) then Throws
        else Truth(host.test(host.operandText(rule), host.text(d)))
      case "gte" =>
        var a, b := host.number(d), host.operandNumber(rule);
        Truth(a.Some? && b.Some? && a.value >= b.value)
      case "is_not_null" => Holds
      case "is_external" =>
        Truth(if rule == One(Bool(true)) then !IsLocal(host.text(d)) else IsLocal(host.text(d)))
      case "in_blacklist" => Holds
      case _ => Fails
  }

  predicate Meets(host: Host, data: Option<Value>, operator: string, rule: Operand) {
    EvaluateCondition(host, data, operator, rule).Holds?
  }

  const OPERATORS: set<string> := {
    "equals", "not_equals", "in", "not_in", "contains", "regex", "gte", "is_not_null", "is_external", "in_blacklist"}

  /** On a present value, each operator and its negation answer oppositely (the list operators only
      when the rule gives a list), and only an invalid pattern throws; on an absent or null value
      every operator fails, and an operator outside the list fails on everything. */
  lemma OperatorsAreTwoValued(host: Host, data: Option<Value>, rule: Operand, operator: string)
    ensures data.None? || data.value.Null? ==> EvaluateCondition(host, data, operator, rule).Fails?
    ensures operator !in OPERATORS ==> EvaluateCondition(host, data, operator, rule).Fails?
    ensures data.Some? && !data.value.Null? ==>
      && (Meets(host, data, "equals", rule) <==> !Meets(host, data, "not_equals", rule))
      && (rule.Many? ==> (Meets(host, data, "in", rule) <==> !Meets(host, data, "not_in", rule)))
      && (rule.One? ==> !Meets(host, data, "in", rule) && !Meets(host, data, "not_in", rule))
      && (Meets(host, data, "is_external", One(Bool(true))) <==>
          !Meets(host, data, "is_external", One(Bool(false))))
      && (EvaluateCondition(host, data, operator, rule).Throws? <==>
          operator == "regex" && !host.compiles(host.operandText(rule)))
  {
    hide Includes, Contains, IsLocal;
  }

  // Two decimal digits.
  function TwoDigits(n: nat): string
    requires n < 100
  {
    [('0' as int + n / 10) as char, ('0' as int + n % 10) as char]
  }

  // 10/8, 192.168/16, 172.16/12 and 127.0.0.1, as dotted text.
  ghost predicate PrivateAddress(address: string) {
    || "10." <= address || "192.168." <= address || "127.0.0.1" <= address
    || exists n: nat :: 16 <= n <= 31 && "172." + TwoDigits(n) + "." <= address
  }

  lemma PrefixIsPrivate(i: nat)
    requires i < |LOCAL_PREFIXES|
    ensures i == 0 ==> LOCAL_PREFIXES[i] == "192.168."
    ensures i == 1 ==> LOCAL_PREFIXES[i] == "10."
    ensures i == 2 ==> LOCAL_PREFIXES[i] == "127.0.0.1"
    ensures i >= 3 ==> i + 13 <= 31 && LOCAL_PREFIXES[i] == "172." + TwoDigits(i + 13) + "."
  {
  }

  lemma LocalIsPrivate(address: string)
    ensures IsLocal(address) <==> PrivateAddress(address)
  {
    assert |LOCAL_PREFIXES| == 19;
    hide LOCAL_PREFIXES, TwoDigits;
    if i :| 0 <= i < |LOCAL_PREFIXES| && StartsWith(address, LOCAL_PREFIXES[i]) {
      PrefixIsPrivate(i);
    }
    PrefixIsPrivate(0);
    PrefixIsPrivate(1);
    PrefixIsPrivate(2);
    if "10." <= address { assert StartsWith(address, LOCAL_PREFIXES[1]); }
    if "192.168." <= address { assert StartsWith(address, LOCAL_PREFIXES[0]); }
    if "127.0.0.1" <= address { assert StartsWith(address, LOCAL_PREFIXES[2]); }
    if n: nat :| 16 <= n <= 31 && "172." + TwoDigits(n) + "." <= address {
      PrefixIsPrivate(n - 13);
      assert StartsWith(address, LOCAL_PREFIXES[n - 13]);
    }
  }

  predicate LargerBy(a: real, b: real, more: real) {
    more >= 0.0 && a == b + more
  }

  /** What the operators mean on a present value: "equals" is being the same primitive; "in" is equality
      with some entry; "contains" is having the text somewhere inside; "gte" is being larger by some
      amount that is not negative; "regex" is that the pattern tests true; a value that is there is not
      null, and on no black list yet; an address is external exactly if it is in no private range. */
  lemma OperatorsMean(host: Host, d: Value, rule: Operand)
    requires !d.Null?
    ensures Meets(host, Some(d), "equals", rule) <==> rule == One(d) && !d.Other?
    ensures Meets(host, Some(d), "in", rule) <==>
              rule.Many? && exists i :: 0 <= i < |rule.values| && Meets(host, Some(d), "equals", One(rule.values[i]))
    ensures Meets(host, Some(d), "contains", rule) <==>
              exists before, after :: host.text(d) == before + host.operandText(rule) + after
    ensures Meets(host, Some(d), "gte", rule) <==>
              && host.number(d).Some? && host.operandNumber(rule).Some?
              && exists more :: LargerBy(host.number(d).value, host.operandNumber(rule).value, more)
    ensures host.compiles(host.operandText(rule)) ==>
              (Meets(host, Some(d), "regex", rule) <==> host.test(host.operandText(rule), host.text(d)))
    ensures Meets(host, Some(d), "is_not_null", rule) && Meets(host, Some(d), "in_blacklist", rule)
    ensures Meets(host, Some(d), "is_external", One(Bool(true))) <==> !PrivateAddress(host.text(d))
    ensures rule != One(Bool(true)) ==> (Meets(host, Some(d), "is_external", rule) <==> PrivateAddress(host.text(d)))
  {
    hide IsLocal, PrivateAddress;
    if rule.Many? {
      forall i | 0 <= i < |rule.values|
        ensures Meets(host, Some(d), "equals", One(rule.values[i])) <==> StrictlyEqual(rule.values[i], d)
      {
      }
    }
    ContainsMeans(host.text(d), host.operandText(rule));
    LocalIsPrivate(host.text(d));
    var a, b := host.number(d), host.operandNumber(rule);
    if a.Some? && b.Some? && a.value >= b.value {
      assert LargerBy(a.value, b.value, a.value - b.value);
    }
  }

  function Judge(host: Host, c: Condition, payload: Option<Fields>): Verdict {
    if payload.None? then Throws
    else EvaluateCondition(host, Lookup(payload.value, c.field), c.operator, c.value)
  }

  // All conditions in order, stopping at the first that does not hold.
  function JudgeAll(host: Host, cs: seq<Condition>, payload: Option<Fields>): Verdict {
    if cs == [] then Holds
    else
      var v := Judge(host, cs[0], payload);
      if v.Holds? then JudgeAll(host, cs[1..], payload) else v
  }

  // ---- One rule ----

  function FirstNonEmpty(a: string, b: string): string {
    if a != "" then a else b
  }

  function RuleType(r: Rule): string {
    FirstNonEmpty(r.kind, FirstNonEmpty(r.dataType, r.dataSource))
  }

  predicate TypeFits(r: Rule, ev: Event) {
    RuleType(r) == "" || RuleType(r) == FirstNonEmpty(ev.kind, ev.dataType)
  }

  predicate Falsy(v: Value) {
    v == Str("") || v == Num(0.0) || v == Bool(false) || v == Null
  }

  function GroupPart(host: Host, payload: Fields, field: string): string {
    if field in payload && !Falsy(payload[field]) then host.text(payload[field]) else "unknown"
  }

  function Joined(host: Host, payload: Fields, fields: seq<string>): string {
    if fields == [] then ""
    else "-" + GroupPart(host, payload, fields[0]) + Joined(host, payload, fields[1..])
  }

  function GroupKey(host: Host, ev: Event, groupBy: seq<string>): string {
    ev.agentId + Joined(host, if ev.payload.Some? then ev.payload.value else map[], groupBy)
  }

  // The group key needs a field of a payload that is not there.
  predicate GroupThrows(r: Rule, ev: Event) {
    ev.payload.None? && r.threshold.Some? && r.threshold.value.groupBy != []
  }

  // What an event does at a rule before any counter is looked at.
  function Entry(host: Host, r: Rule, ev: Event): Verdict {
    if !TypeFits(r, ev) then Fails
    else
      var v := JudgeAll(host, r.conditions, ev.payload);
      if v.Holds? && GroupThrows(r, ev) then Throws else v
  }

  function Now(ev: Event, clock: int): Stamp {
    if ev.timestamp.Some? then ev.timestamp.value else At(clock)
  }

  // Counters of every rule, by rule id; a rule without an entry has none.
  type Caches = map<string, Cache>

  function RuleCache(caches: Caches, id: string): Cache {
    if id in caches then caches[id] else map[]
  }

  function CounterOf(caches: Caches, id: string, group: string): Option<Counter> {
    Lookup(RuleCache(caches, id), group)
  }

  function AlertOf(r: Rule, ev: Event): Alert {
    Alert(ev.agentId, ev.kind, r.id, r.name, r.level, r.category, ev.payload)
  }

  datatype Outcome = Threw | Done(alerts: seq<Alert>, alertObj: bool)

  // notified: the alerts pushed to the master and by mail.
  datatype Result = Result(caches: Caches, outcome: Outcome, notified: seq<Alert>)

  function Fired(r: Rule, ev: Event, caches: Caches): Result {
    var urgent := r.level >= 10;
    Result(caches, Done([AlertOf(r, ev)], urgent), if urgent then [AlertOf(r, ev)] else [])
  }

  function Evaluate(host: Host, rules: seq<Rule>, ev: Event, clock: int, caches: Caches): Result
    decreases |rules|
  {
    if rules == [] then Result(caches, Done([], false), [])
    else
      var r, rest := rules[0], rules[1..];
      match Entry(host, r, ev)
      case Throws => Result(caches, Threw, [])
      case Fails => Evaluate(host, rest, ev, clock, caches)
      case Holds =>
        if r.threshold.None? then Fired(r, ev, caches)
        else
          var group := GroupKey(host, ev, r.threshold.value.groupBy);
          var checked := Check(CounterOf(caches, r.id, group), Now(ev, clock), r.threshold.value.limit);
          var next := caches[r.id := Store(RuleCache(caches, r.id), group, checked.counter)];
          if checked.alert then Fired(r, ev, next) else Evaluate(host, rest, ev, clock, next)
  }

  // ---- The declarative reading: the first rule to fire ----

  datatype Turn = Skips | Breaks | Counts | Fires

  // What a rule would do on its own with the counters the event finds.
  function TurnOf(host: Host, r: Rule, ev: Event, clock: int, caches: Caches): Turn {
    match Entry(host, r, ev)
    case Throws => Breaks
    case Fails => Skips
    case Holds =>
      if r.threshold.None? then Fires
      else
        var group := GroupKey(host, ev, r.threshold.value.groupBy);
        if Check(CounterOf(caches, r.id, group), Now(ev, clock), r.threshold.value.limit).alert then Fires
        else Counts
  }

  predicate DistinctIds(rules: seq<Rule>) {
    forall i, j :: 0 <= i < j < |rules| ==> rules[i].id != rules[j].id
  }

  // Rule r advances exactly this counter when it has its turn.
  predicate Touches(host: Host, r: Rule, ev: Event, clock: int, caches: Caches, id: string, group: string) {
    && r.id == id && r.threshold.Some?
    && group == GroupKey(host, ev, r.threshold.value.groupBy)
    && (TurnOf(host, r, ev, clock, caches).Counts? || TurnOf(host, r, ev, clock, caches).Fires?)
  }

  // The first rule to fire or to throw; |rules| when there is none.
  function StopIndex(host: Host, rules: seq<Rule>, ev: Event, clock: int, caches: Caches): (i: nat)
    ensures i <= |rules|
  {
    if rules == [] then 0
    else
      var t := TurnOf(host, rules[0], ev, clock, caches);
      if t.Fires? || t.Breaks? then 0 else 1 + StopIndex(host, rules[1..], ev, clock, caches)
  }

  // What a counter is after the first n rules had their turn.
  ghost predicate CounterRight(host: Host, rules: seq<Rule>, n: nat, ev: Event, clock: int,
                               caches: Caches, after: Caches, id: string, group: string)
    requires n <= |rules|
  {
    && (forall j :: 0 <= j < n && Touches(host, rules[j], ev, clock, caches, id, group) ==>
          CounterOf(after, id, group) ==
          Check(CounterOf(caches, id, group), Now(ev, clock), rules[j].threshold.value.limit).counter)
    && ((forall j :: 0 <= j < n ==> !Touches(host, rules[j], ev, clock, caches, id, group)) ==>
          CounterOf(after, id, group) == CounterOf(caches, id, group))
  }

  ghost predicate OutcomeRight(host: Host, rules: seq<Rule>, ev: Event, clock: int, caches: Caches, i: nat, r: Result)
    requires i <= |rules|
  {
    if i == |rules| then r.outcome == Done([], false) && r.notified == []
    else if TurnOf(host, rules[i], ev, clock, caches).Breaks? then r.outcome == Threw && r.notified == []
    else
      var alert := AlertOf(rules[i], ev);
      && r.outcome == Done([alert], rules[i].level >= 10)
      && r.notified == (if rules[i].level >= 10 then [alert] else [])
  }

  lemma AdvanceTouchesOne(caches: Caches, r: string, g: string, c: Option<Counter>, id: string, group: string)
    ensures var next := caches[r := Store(RuleCache(caches, r), g, c)];
            CounterOf(next, id, group) == if id == r && group == g then c else CounterOf(caches, id, group)
  {
  }

  // Rules with other ids have the same turn whatever happens to the counters of r.
  lemma {:induction false} TurnsIgnore(host: Host, rules: seq<Rule>, ev: Event, clock: int,
                                       caches: Caches, next: Caches, r: string)
    requires forall id, group :: id != r ==> CounterOf(next, id, group) == CounterOf(caches, id, group)
    requires forall j :: 0 <= j < |rules| ==> rules[j].id != r
    ensures StopIndex(host, rules, ev, clock, next) == StopIndex(host, rules, ev, clock, caches)
    ensures forall j :: 0 <= j < |rules| ==>
              TurnOf(host, rules[j], ev, clock, next) == TurnOf(host, rules[j], ev, clock, caches)
  {
    hide Check, Entry, GroupKey, CounterOf;
    forall j | 0 <= j < |rules|
      ensures TurnOf(host, rules[j], ev, clock, next) == TurnOf(host, rules[j], ev, clock, caches)
    {
    }
    if rules != [] {
      TurnsIgnore(host, rules[1..], ev, clock, caches, next, r);
    }
  }

  /** With distinct rule ids, evaluateData is: the first rule in list order that matches type and
      conditions and has no threshold or reaches it raises the only alert (an invalid pattern met
      on the way throws instead); alertObj and the pushes mean level >= 10; every matching
      threshold rule up to there advances its counter once, and no other counter changes. */
  lemma {:induction false} EvaluateIsFirstToFire(
    host: Host, rules: seq<Rule>, ev: Event, clock: int, caches: Caches, id: string, group: string)
    requires DistinctIds(rules)
    ensures var r := Evaluate(host, rules, ev, clock, caches);
            var i := StopIndex(host, rules, ev, clock, caches);
            && OutcomeRight(host, rules, ev, clock, caches, i, r)
            && CounterRight(host, rules, if i < |rules| then i + 1 else i, ev, clock, caches, r.caches, id, group)
    decreases |rules|
  {
    hide Entry, GroupKey, Check, CounterOf, Now;
    if rules != [] {
      var r, rest := rules[0], rules[1..];
      var t := TurnOf(host, r, ev, clock, caches);
      var next := NextCaches(host, r, ev, clock, caches);
      NextCachesRight(host, r, ev, clock, caches);
      if t.Skips? || t.Counts? {
        EvaluateIsFirstToFire(host, rest, ev, clock, next, id, group);
        TurnsIgnore(host, rest, ev, clock, caches, next, r.id);
        ShiftRight(host, rules, ev, clock, caches, next, Evaluate(host, rest, ev, clock, next), id, group);
      }
    }
  }

  // The caches after the turn of r.
  function NextCaches(host: Host, r: Rule, ev: Event, clock: int, caches: Caches): Caches {
    var t := TurnOf(host, r, ev, clock, caches);
    if r.threshold.None? || t.Skips? || t.Breaks? then caches
    else
      var group := GroupKey(host, ev, r.threshold.value.groupBy);
      var checked := Check(CounterOf(caches, r.id, group), Now(ev, clock), r.threshold.value.limit);
      caches[r.id := Store(RuleCache(caches, r.id), group, checked.counter)]
  }

  lemma NextCachesRight(host: Host, r: Rule, ev: Event, clock: int, caches: Caches)
    ensures forall id, group ::
              CounterOf(NextCaches(host, r, ev, clock, caches), id, group) ==
              if Touches(host, r, ev, clock, caches, id, group)
              then Check(CounterOf(caches, id, group), Now(ev, clock), r.threshold.value.limit).counter
              else CounterOf(caches, id, group)
  {
    hide Entry, GroupKey, Check, Now;
  }

  // The first rule only counted or was skipped, so the rest decides, one position further on.
  lemma ShiftRight(host: Host, rules: seq<Rule>, ev: Event, clock: int, caches: Caches, next: Caches,
                   r: Result, id: string, group: string)
    requires DistinctIds(rules) && rules != []
    requires next == NextCaches(host, rules[0], ev, clock, caches)
    requires var t := TurnOf(host, rules[0], ev, clock, caches); t.Skips? || t.Counts?
    requires var i := StopIndex(host, rules[1..], ev, clock, next);
             && OutcomeRight(host, rules[1..], ev, clock, next, i, r)
             && CounterRight(host, rules[1..], if i < |rules| - 1 then i + 1 else i, ev, clock, next, r.caches,
                             id, group)
    ensures var i := StopIndex(host, rules, ev, clock, caches);
            && OutcomeRight(host, rules, ev, clock, caches, i, r)
            && CounterRight(host, rules, if i < |rules| then i + 1 else i, ev, clock, caches, r.caches, id, group)
  {
    hide TurnOf, NextCaches, CounterRight, CounterOf, Check, Now, Touches;
    NextCachesRight(host, rules[0], ev, clock, caches);
    TurnsIgnoreFirst(host, rules, ev, clock, caches);
    var i := StopIndex(host, rules[1..], ev, clock, next);
    ShiftCounter(host, rules, if i < |rules| - 1 then i + 1 else i, ev, clock, caches, next, r.caches, id, group);
  }

  lemma TurnsIgnoreFirst(host: Host, rules: seq<Rule>, ev: Event, clock: int, caches: Caches)
    requires DistinctIds(rules) && rules != []
    ensures var next := NextCaches(host, rules[0], ev, clock, caches);
            && StopIndex(host, rules[1..], ev, clock, next) == StopIndex(host, rules[1..], ev, clock, caches)
            && forall j :: 0 < j < |rules| ==>
                 TurnOf(host, rules[j], ev, clock, next) == TurnOf(host, rules[j], ev, clock, caches)
  {
    hide TurnOf, NextCaches, CounterOf, Check, Now;
    var next := NextCaches(host, rules[0], ev, clock, caches);
    NextCachesRight(host, rules[0], ev, clock, caches);
    TurnsIgnore(host, rules[1..], ev, clock, caches, next, rules[0].id);
    forall j | 0 < j < |rules|
      ensures TurnOf(host, rules[j], ev, clock, next) == TurnOf(host, rules[j], ev, clock, caches)
    {
      assert rules[j] == rules[1..][j - 1];
    }
  }

  lemma ShiftCounter(host: Host, rules: seq<Rule>, n: nat, ev: Event, clock: int, caches: Caches, next: Caches,
                     after: Caches, id: string, group: string)
    requires DistinctIds(rules) && n < |rules|
    requires next == NextCaches(host, rules[0], ev, clock, caches)
    requires CounterRight(host, rules[1..], n, ev, clock, next, after, id, group)
    ensures CounterRight(host, rules, n + 1, ev, clock, caches, after, id, group)
  {
    hide TurnOf, NextCaches, CounterOf, Check, Now, GroupKey;
    NextCachesRight(host, rules[0], ev, clock, caches);
    TurnsIgnoreFirst(host, rules, ev, clock, caches);
    forall j | 0 <= j < n
      ensures Touches(host, rules[j + 1], ev, clock, caches, id, group) <==>
              Touches(host, rules[1..][j], ev, clock, next, id, group)
    {
      assert rules[1..][j] == rules[j + 1];
    }
    forall j | 0 <= j < n + 1 && Touches(host, rules[j], ev, clock, caches, id, group)
      ensures CounterOf(after, id, group) ==
              Check(CounterOf(caches, id, group), Now(ev, clock), rules[j].threshold.value.limit).counter
    {
      if j > 0 {
        assert Touches(host, rules[1..][j - 1], ev, clock, next, id, group);
      }
    }
    if forall j :: 0 <= j < n + 1 ==> !Touches(host, rules[j], ev, clock, caches, id, group) {
      forall j | 0 <= j < n ensures !Touches(host, rules[1..][j], ev, clock, next, id, group) {
        assert !Touches(host, rules[j + 1], ev, clock, caches, id, group);
      }
    }
  }
}
