/** How agent keys get from the master to the workers: a snapshot when a worker registers, and a
    push after every handshake, both running concurrently with everything else.

    The master's handlers suspend at their queries; each action below is what runs between two
    suspensions, or one delivery, or a network event. */
module KeySync {
  import opened Shared

  type WorkerId = string
  type Keys = map<AgentId, Key>

  datatype Msg = Welcome | Rules | KeysSync(keys: Keys) | NewAgentKey(id: AgentId, key: Key)

  // How far the REGISTER_WORKER handler of a connection has come.
  datatype Stage =
    | Anonymous             // no REGISTER_WORKER yet
    | Registered            // in activeWorkers, waiting for the rules
    | RulesSent             // waiting for the key query
    | Queried(keys: Keys)   // the database has answered
    | Complete

  // up: messages still arrive; closeSeen: the master has handled the close event.
  datatype Conn = Conn(worker: WorkerId, stage: Stage, up: bool, closeSeen: bool, channel: seq<Msg>)

  // table: the agents in the database, with their keys; created: every agent there ever was;
  // checked: handshakes whose signature was right, with the key they read; greeted: agents whose
  // handshake was answered; caches: the key cache of each worker process.
  datatype Net = Net(table: Keys, created: Keys, checked: set<(AgentId, Key)>, greeted: set<AgentId>,
                     activeWorkers: map<WorkerId, nat>, conns: seq<Conn>, caches: map<WorkerId, Keys>)

  const INITIAL := Net(map[], map[], {}, {}, map[], [], map[])

  datatype Action =
    | CreateAgent(id: AgentId, key: Key)
    | DeleteAgent(id: AgentId)
    | CheckHandshake(id: AgentId)              // row read and signature verified
    | AnswerHandshake(id: AgentId, key: Key)   // key pushed to the workers, token returned
    | Connect(worker: WorkerId)
    | Register(c: nat)
    | SendRules(c: nat)
    | QueryKeys(c: nat)
    | QueryFails(c: nat)
    | SendKeys(c: nat)
    | Deliver(c: nat)
    | Drop(c: nat)                             // the connection goes down
    | HandleClose(c: nat)
    | Restart(worker: WorkerId)                // the worker process loses its cache and its connections

  function CacheOf(n: Net, w: WorkerId): Keys {
    if w in n.caches then n.caches[w] else map[]
  }

  // Sending on a connection that is down is lost.
  function Send(c: Conn, m: Msg): Conn {
    if c.up then c.(channel := c.channel + [m]) else c
  }

  function Down(c: Conn): Conn {
    c.(up := false, channel := [])
  }

  // The worker's message handler.
  function Apply(cache: Keys, m: Msg): Keys {
    match m
    case KeysSync(keys) => cache + keys
    case NewAgentKey(id, key) => cache[id := key]
    case _ => cache
  }

  predicate InRegistry(n: Net, i: nat)
    requires i < |n.conns|
  {
    n.conns[i].worker in n.activeWorkers && n.activeWorkers[n.conns[i].worker] == i
  }

  // activeWorkers.forEach(ws => ws.send(m))
  function Push(n: Net, m: Msg): seq<Conn> {
    seq(|n.conns|, i requires 0 <= i < |n.conns| => if InRegistry(n, i) then Send(n.conns[i], m) else n.conns[i])
  }

  function DownAll(conns: seq<Conn>, w: WorkerId): seq<Conn> {
    seq(|conns|, i requires 0 <= i < |conns| => if conns[i].worker == w then Down(conns[i]) else conns[i])
  }

  predicate AtStage(n: Net, c: nat, stage: Stage) {
    c < |n.conns| && n.conns[c].stage == stage
  }

  predicate Enabled(n: Net, a: Action) {
    match a
    case CreateAgent(id, _) => id !in n.created   // generated ids are fresh
    case DeleteAgent(id) => id in n.table
    case CheckHandshake(id) => id in n.table
    case AnswerHandshake(id, key) => (id, key) in n.checked
    case Connect(_) => true
    case Register(c) => AtStage(n, c, Anonymous) && !n.conns[c].closeSeen
    case SendRules(c) => AtStage(n, c, Registered)
    case QueryKeys(c) => AtStage(n, c, RulesSent)
    case QueryFails(c) => AtStage(n, c, RulesSent)
    case SendKeys(c) => c < |n.conns| && n.conns[c].stage.Queried?
    case Deliver(c) => c < |n.conns| && n.conns[c].channel != []
    case Drop(c) => c < |n.conns| && n.conns[c].up
    case HandleClose(c) => c < |n.conns| && !n.conns[c].up && !n.conns[c].closeSeen
    case Restart(_) => true
  }

  function SetConn(n: Net, c: nat, conn: Conn): Net
    requires c < |n.conns|
  {
    n.(conns := n.conns[c := conn])
  }

  function Do(n: Net, a: Action): Net
    requires Enabled(n, a)
  {
    match a
    case CreateAgent(id, key) => n.(table := n.table[id := key], created := n.created[id := key])
    case DeleteAgent(id) => n.(table := n.table - {id})
    case CheckHandshake(id) => n.(checked := n.checked + {(id, n.table[id])})
    case AnswerHandshake(id, key) => n.(conns := Push(n, NewAgentKey(id, key)), greeted := n.greeted + {id})
    case Connect(w) => n.(conns := n.conns + [Conn(w, Anonymous, true, false, [])])
    case Register(c) =>
      SetConn(n, c, Send(n.conns[c], Welcome).(stage := Registered))
      .(activeWorkers := n.activeWorkers[n.conns[c].worker := c])
    case SendRules(c) => SetConn(n, c, Send(n.conns[c], Rules).(stage := RulesSent))
    case QueryKeys(c) => SetConn(n, c, n.conns[c].(stage := Queried(n.table)))
    case QueryFails(c) => SetConn(n, c, n.conns[c].(stage := Complete))
    case SendKeys(c) => SetConn(n, c, Send(n.conns[c], KeysSync(n.conns[c].stage.keys)).(stage := Complete))
    case Deliver(c) =>
      var conn := n.conns[c];
      SetConn(n, c, conn.(channel := conn.channel[1..]))
      .(caches := n.caches[conn.worker := Apply(CacheOf(n, conn.worker), conn.channel[0])])
    case Drop(c) => SetConn(n, c, Down(n.conns[c]))
    case HandleClose(c) =>
      // the id is deleted whichever connection it names
      SetConn(n, c, n.conns[c].(closeSeen := true))
      .(activeWorkers := if n.conns[c].stage.Anonymous? then n.activeWorkers
                         else n.activeWorkers - {n.conns[c].worker})
    case Restart(w) => n.(conns := DownAll(n.conns, w), caches := n.caches[w := map[]])
  }

  function Run(actions: seq<Action>): Net {
    if actions == [] then INITIAL
    else
      var n := Run(actions[..|actions| - 1]);
      var a := actions[|actions| - 1];
      if Enabled(n, a) then Do(n, a) else n
  }

  // ---- Every key anywhere is the one created for its agent ----

  ghost predicate Genuine(keys: Keys, created: Keys) {
    forall id :: id in keys ==> id in created && keys[id] == created[id]
  }

  ghost predicate MsgGenuine(m: Msg, created: Keys) {
    && (m.KeysSync? ==> Genuine(m.keys, created))
    && (m.NewAgentKey? ==> m.id in created && m.key == created[m.id])
  }

  ghost predicate ConnGenuine(c: Conn, created: Keys) {
    && (c.stage.Queried? ==> Genuine(c.stage.keys, created))
    && (forall i :: 0 <= i < |c.channel| ==> MsgGenuine(c.channel[i], created))
  }

  ghost predicate AllGenuine(n: Net) {
    && Genuine(n.table, n.created)
    && (forall p :: p in n.checked ==> p.0 in n.created && p.1 == n.created[p.0])
    && (forall id :: id in n.greeted ==> id in n.created)
    && (forall c :: 0 <= c < |n.conns| ==> ConnGenuine(n.conns[c], n.created))
    && (forall w :: w in n.caches ==> Genuine(n.caches[w], n.created))
  }

  lemma StepKeepsConnGenuine(n: Net, a: Action, c: nat)
    requires AllGenuine(n) && Enabled(n, a) && c < |Do(n, a).conns|
    ensures ConnGenuine(Do(n, a).conns[c], Do(n, a).created)
  {
    hide Apply;
    if c < |n.conns| { assert ConnGenuine(n.conns[c], n.created); }
  }

  lemma StepKeepsGenuine(n: Net, a: Action)
    requires AllGenuine(n) && Enabled(n, a)
    ensures AllGenuine(Do(n, a))
  {
    hide ConnGenuine, MsgGenuine, Push, DownAll;
    var m := Do(n, a);
    forall c | 0 <= c < |m.conns| ensures ConnGenuine(m.conns[c], m.created) {
      StepKeepsConnGenuine(n, a, c);
    }
    if a.Deliver? {
      DeliveredGenuine(n, a.c);
    }
  }

  lemma DeliveredGenuine(n: Net, c: nat)
    requires AllGenuine(n) && Enabled(n, Deliver(c))
    ensures Genuine(Apply(CacheOf(n, n.conns[c].worker), n.conns[c].channel[0]), n.created)
  {
    assert ConnGenuine(n.conns[c], n.created);
  }

  /** In every run, whatever is lost, repeated or reordered, a cached key is the one created for
      that agent. */
  lemma {:induction false} CachedKeysAreGenuine(actions: seq<Action>)
    ensures AllGenuine(Run(actions))
  {
    hide Do;
    if actions != [] {
      var n := Run(actions[..|actions| - 1]);
      CachedKeysAreGenuine(actions[..|actions| - 1]);
      if Enabled(n, actions[|actions| - 1]) { StepKeepsGenuine(n, actions[|actions| - 1]); }
    }
  }

  // ---- No gap between the snapshot and the pushes ----

  // A registered connection over which messages still arrive.
  predicate Live(c: Conn) {
    c.up && !c.stage.Anonymous?
  }

  ghost predicate LiveAreRegistered(n: Net) {
    forall c :: 0 <= c < |n.conns| && Live(n.conns[c]) ==> InRegistry(n, c)
  }

  predicate Carries(m: Msg, id: AgentId) {
    (m.KeysSync? && id in m.keys) || (m.NewAgentKey? && m.id == id)
  }

  // The key of id has reached the worker, is on its way, or is yet to be read for the snapshot.
  ghost predicate Covered(n: Net, c: Conn, id: AgentId) {
    || id in CacheOf(n, c.worker)
    || (exists i :: 0 <= i < |c.channel| && Carries(c.channel[i], id))
    || c.stage.Registered? || c.stage.RulesSent?
    || (c.stage.Queried? && id in c.stage.keys)
  }

  ghost predicate NoGap(n: Net) {
    forall c, id :: 0 <= c < |n.conns| && Live(n.conns[c]) && id in n.greeted && id in n.table ==>
      Covered(n, n.conns[c], id)
  }

  // The proviso, as it can be checked before a step: an id registers again only after every earlier
  // registration of it was closed and the close handled; and the key query succeeds.
  predicate Orderly(n: Net, a: Action) {
    && !a.QueryFails?
    && (a.Register? && a.c < |n.conns| ==>
          forall d :: 0 <= d < |n.conns| && d != a.c && n.conns[d].worker == n.conns[a.c].worker ==>
            n.conns[d].stage.Anonymous? || n.conns[d].closeSeen)
  }

  ghost predicate OrderlyRun(actions: seq<Action>) {
    forall k :: 0 <= k < |actions| ==> Orderly(Run(actions[..k]), actions[k])
  }

  // A connection whose close is handled is down; and at most one registration per id is open.
  ghost predicate OneOpen(n: Net) {
    && (forall c :: 0 <= c < |n.conns| && n.conns[c].closeSeen ==> !n.conns[c].up)
    && (forall c, d :: 0 <= c < d < |n.conns| && n.conns[c].worker == n.conns[d].worker
                       && !n.conns[c].stage.Anonymous? && !n.conns[d].stage.Anonymous? ==>
          n.conns[c].closeSeen || n.conns[d].closeSeen)
  }

  // What a step can do to one connection, as far as OneOpen is concerned.
  lemma ConnMoves(n: Net, a: Action, c: nat)
    requires Enabled(n, a) && c < |Do(n, a).conns|
    ensures c <= |n.conns|
    ensures var after := Do(n, a).conns[c];
            if c == |n.conns| then after.stage.Anonymous? && !after.closeSeen
            else
              var before := n.conns[c];
              && after.worker == before.worker
              && (after.up ==> before.up)
              && (before.closeSeen ==> after.closeSeen)
              && (after.closeSeen && !before.closeSeen ==> !after.up)
              && (a != Register(c) ==> (after.stage.Anonymous? <==> before.stage.Anonymous?))
  {
    hide Apply;
  }

  lemma StepKeepsOneOpen(n: Net, a: Action)
    requires OneOpen(n) && Enabled(n, a) && Orderly(n, a)
    ensures OneOpen(Do(n, a))
  {
    hide Do;
    var m := Do(n, a);
    forall c | 0 <= c < |m.conns| && m.conns[c].closeSeen ensures !m.conns[c].up {
      ConnMoves(n, a, c);
    }
    forall c, d | 0 <= c < d < |m.conns| && m.conns[c].worker == m.conns[d].worker
                  && !m.conns[c].stage.Anonymous? && !m.conns[d].stage.Anonymous?
      ensures m.conns[c].closeSeen || m.conns[d].closeSeen
    {
      ConnMoves(n, a, c);
      ConnMoves(n, a, d);
    }
  }

  lemma StepKeepsRegistered(n: Net, a: Action)
    requires OneOpen(n) && LiveAreRegistered(n) && Enabled(n, a) && Orderly(n, a)
    ensures LiveAreRegistered(Do(n, a))
  {
    var m := Do(n, a);
    forall c | 0 <= c < |m.conns| && Live(m.conns[c]) ensures InRegistry(m, c) {
      if c < |n.conns| && Live(n.conns[c]) {
        assert InRegistry(n, c);
      }
    }
  }

  lemma StepKeepsNoGap(n: Net, a: Action)
    requires AllGenuine(n) && LiveAreRegistered(n) && NoGap(n) && Enabled(n, a) && Orderly(n, a)
    ensures NoGap(Do(n, a))
  {
    var m := Do(n, a);
    forall c, id | 0 <= c < |m.conns| && Live(m.conns[c]) && id in m.greeted && id in m.table
      ensures Covered(m, m.conns[c], id)
    {
      if c < |n.conns| && Live(n.conns[c]) && id in n.greeted && id in n.table {
        CoveredStep(n, a, c, id);
      } else if a.AnswerHandshake? {
        assert InRegistry(n, c);
        assert m.conns[c].channel[|n.conns[c].channel|] == NewAgentKey(a.id, a.key);
      }
    }
  }

  // A message stays in the channel of a live connection until it is delivered.
  lemma ChannelKeeps(n: Net, a: Action, c: nat, i: nat)
    requires Enabled(n, a) && c < |n.conns| && i < |n.conns[c].channel|
    requires c < |Do(n, a).conns| && Live(Do(n, a).conns[c])
    ensures var channel := Do(n, a).conns[c].channel;
            if a == Deliver(c) then channel == n.conns[c].channel[1..]
            else i < |channel| && channel[i] == n.conns[c].channel[i]
  {
    hide Apply;
  }

  // Coverage survives each step: channels and caches only move keys forward.
  lemma CoveredStep(n: Net, a: Action, c: nat, id: AgentId)
    requires Enabled(n, a) && Orderly(n, a)
    requires c < |n.conns| && Live(n.conns[c]) && Covered(n, n.conns[c], id) && id in n.table
    requires c < |Do(n, a).conns| && Live(Do(n, a).conns[c])
    ensures Covered(Do(n, a), Do(n, a).conns[c], id)
  {
    var m := Do(n, a);
    var before, after := n.conns[c], m.conns[c];
    if i :| 0 <= i < |before.channel| && Carries(before.channel[i], id) {
      hide Push, DownAll;
      ChannelKeeps(n, a, c, i);
      if a != Deliver(c) {
        assert Carries(after.channel[i], id);
      } else if i > 0 {
        assert Carries(after.channel[i - 1], id);
      }
    } else if a == SendKeys(c) {
      assert after.channel[|before.channel|] == KeysSync(before.stage.keys);
    }
  }

  lemma {:induction false} OrderlyRunsAreCovered(actions: seq<Action>)
    requires OrderlyRun(actions)
    ensures OneOpen(Run(actions)) && LiveAreRegistered(Run(actions)) && NoGap(Run(actions))
  {
    hide Do, NoGap, LiveAreRegistered, OneOpen, Orderly;
    if actions == [] {
      NothingYet();
    } else {
      var init := actions[..|actions| - 1];
      forall k | 0 <= k < |init| ensures Orderly(Run(init[..k]), init[k]) {
        assert init[..k] == actions[..k];
      }
      OrderlyRunsAreCovered(init);
      CachedKeysAreGenuine(init);
      var n, a := Run(init), actions[|actions| - 1];
      assert Orderly(n, a);
      if Enabled(n, a) {
        StepKeepsOneOpen(n, a);
        StepKeepsRegistered(n, a);
        StepKeepsNoGap(n, a);
      }
    }
  }

  lemma NothingYet()
    ensures OneOpen(INITIAL) && LiveAreRegistered(INITIAL) && NoGap(INITIAL)
  {
  }

  /** Key sync has no gap: in every orderly run, once a live worker's registration is complete and
      its channel has drained, it holds the key of every undeleted agent whose handshake was
      answered, at whatever moments the handshakes fell. */
  lemma DrainedWorkerHasAllKeys(actions: seq<Action>, c: nat, id: AgentId)
    requires OrderlyRun(actions)
    requires var n := Run(actions);
             && c < |n.conns| && Live(n.conns[c]) && n.conns[c].stage.Complete? && n.conns[c].channel == []
             && id in n.greeted && id in n.table
    ensures var n := Run(actions);
            id in CacheOf(n, n.conns[c].worker) && CacheOf(n, n.conns[c].worker)[id] == n.table[id]
  {
    OrderlyRunsAreCovered(actions);
    CachedKeysAreGenuine(actions);
    var n := Run(actions);
    assert Covered(n, n.conns[c], id);
  }

  // ---- Why the order of close and re-registration matters ----

  /** Handling a close keeps every live connection registered exactly when no live connection of the
      same id is there: the handler deletes the id without looking at the connection. */
  lemma CloseKeepsRegisteredIff(n: Net, c: nat)
    requires LiveAreRegistered(n) && Enabled(n, HandleClose(c)) && !n.conns[c].stage.Anonymous?
    ensures LiveAreRegistered(Do(n, HandleClose(c))) <==>
            forall d :: 0 <= d < |n.conns| && Live(n.conns[d]) ==> n.conns[d].worker != n.conns[c].worker
  {
    var m := Do(n, HandleClose(c));
    if d :| 0 <= d < |n.conns| && Live(n.conns[d]) && n.conns[d].worker == n.conns[c].worker {
      assert Live(m.conns[d]) && !InRegistry(m, d);
    } else {
      forall d | 0 <= d < |m.conns| && Live(m.conns[d]) ensures InRegistry(m, d) {
        assert Live(n.conns[d]) && InRegistry(n, d);
      }
    }
  }

  function Step(n: Net, a: Action): Net {
    if Enabled(n, a) then Do(n, a) else n
  }

  lemma RunSnoc(actions: seq<Action>, a: Action)
    ensures Run(actions + [a]) == Step(Run(actions), a)
  {
    assert (actions + [a])[..|actions|] == actions;
  }

  // A worker reconnects and registers before the close of its first connection is handled.
  const RECONNECT: seq<Action> :=
    [Connect("w"), Register(0), Drop(0), Connect("w"), Register(1), SendRules(1), QueryKeys(1), SendKeys(1),
     Deliver(1), Deliver(1), Deliver(1)]

  const RECONNECTED := Net(map[], map[], {}, {}, map["w" := 1],
    [Conn("w", Registered, false, false, []), Conn("w", Complete, true, false, [])], map["w" := map[]])

  const DROPPED := Conn("w", Registered, false, false, [])

  lemma FirstConnectionDrops()
    ensures StepAll(RECONNECT, 4) ==
            INITIAL.(activeWorkers := map["w" := 0], conns := [DROPPED, Conn("w", Anonymous, true, false, [])])
  {
    hide Step, StepAll;
    FirstSteps();
    Unfold(0); Unfold(1); Unfold(2); Unfold(3);
    assert StepAll(RECONNECT, 0) == INITIAL by { NoStep(RECONNECT); }
  }

  lemma NoStep(a: seq<Action>)
    ensures StepAll(a, 0) == INITIAL
  {
  }

  // The state while only the first connection exists.
  function First(registry: map<WorkerId, nat>, conn: Conn): Net {
    INITIAL.(activeWorkers := registry, conns := [conn])
  }

  lemma FirstSteps()
    ensures Step(INITIAL, Connect("w")) == First(map[], Conn("w", Anonymous, true, false, []))
    ensures Step(First(map[], Conn("w", Anonymous, true, false, [])), Register(0)) ==
            First(map["w" := 0], Conn("w", Registered, true, false, [Welcome]))
    ensures Step(First(map["w" := 0], Conn("w", Registered, true, false, [Welcome])), Drop(0)) ==
            First(map["w" := 0], DROPPED)
    ensures Step(First(map["w" := 0], DROPPED), Connect("w")) ==
            First(map["w" := 0], DROPPED).(conns := [DROPPED, Conn("w", Anonymous, true, false, [])])
  {
    hide Push, DownAll, Apply;
    var none: seq<Msg> := [];
    assert none + [Welcome] == [Welcome];
  }

  // The messages of the second registration.
  function Sent(n: nat): seq<Msg> {
    if n == 0 then [] else if n == 1 then [Welcome] else if n == 2 then [Welcome, Rules]
    else [Welcome, Rules, KeysSync(map[])]
  }

  // The second connection while it registers.
  function Second(stage: Stage, channel: seq<Msg>, caches: map<WorkerId, Keys>): Net {
    Net(map[], map[], {}, {}, map["w" := 1], [DROPPED, Conn("w", stage, true, false, channel)], caches)
  }

  lemma SecondConnectionRegisters()
    ensures StepAll(RECONNECT, 7) == Second(Queried(map[]), Sent(2), map[])
  {
    hide StepAll, Step, Second;
    FirstConnectionDrops();
    SecondIsAccepted();
    SecondIsAnswered();
    Unfold(4); Unfold(5); Unfold(6);
  }

  lemma SecondIsAccepted()
    ensures Step(INITIAL.(activeWorkers := map["w" := 0], conns := [DROPPED, Conn("w", Anonymous, true, false, [])]),
                 Register(1)) == Second(Registered, Sent(1), map[])
  {
    hide Push, DownAll, Apply;
    var n4 := INITIAL.(activeWorkers := map["w" := 0], conns := [DROPPED, Conn("w", Anonymous, true, false, [])]);
    assert Sent(0) + [Welcome] == Sent(1);
    assert n4.conns[1 := Conn("w", Registered, true, false, Sent(1))] == Second(Registered, Sent(1), map[]).conns;
  }

  lemma SecondIsAnswered()
    ensures Step(Second(Registered, Sent(1), map[]), SendRules(1)) == Second(RulesSent, Sent(2), map[])
    ensures Step(Second(RulesSent, Sent(2), map[]), QueryKeys(1)) == Second(Queried(map[]), Sent(2), map[])
  {
    hide Push, DownAll, Apply;
    assert Sent(1) + [Rules] == Sent(2);
  }

  lemma Unfold(k: nat)
    requires k < |RECONNECT|
    ensures StepAll(RECONNECT, k + 1) == Step(StepAll(RECONNECT, k), RECONNECT[k])
  {
  }

  const EMPTY: map<WorkerId, Keys> := map["w" := map[]]

  lemma KeysAreSent()
    ensures Step(Second(Queried(map[]), Sent(2), map[]), SendKeys(1)) == Second(Complete, Sent(3), map[])
    ensures Step(Second(Complete, Sent(3), map[]), Deliver(1)) == Second(Complete, Sent(3)[1..], EMPTY)
  {
    hide Push, DownAll;
    assert Sent(2) + [KeysSync(map[])] == Sent(3);
  }

  lemma KeysAreDelivered()
    ensures Step(Second(Complete, Sent(3)[1..], EMPTY), Deliver(1)) == Second(Complete, Sent(3)[2..], EMPTY)
    ensures Step(Second(Complete, Sent(3)[2..], EMPTY), Deliver(1)) == RECONNECTED
  {
    hide Push, DownAll;
    assert Sent(3)[1..][1..] == Sent(3)[2..] == [KeysSync(map[])] && Sent(3)[2..][1..] == [];
    var none: Keys := map[];
    assert none + none == none && EMPTY["w" := none] == EMPTY;
  }

  lemma ReconnectRun()
    ensures Run(RECONNECT) == RECONNECTED
  {
    hide StepAll, Step, Second, Run;
    KeysAreSent();
    KeysAreDelivered();
    SecondConnectionRegisters();
    Unfold(7); Unfold(8); Unfold(9); Unfold(10);
    PrefixRun(RECONNECT, 11);
    assert RECONNECT[..11] == RECONNECT;
  }

  // The state after the first k actions, one step at a time.
  function StepAll(a: seq<Action>, k: nat): Net
    requires k <= |a|
  {
    if k == 0 then INITIAL else Step(StepAll(a, k - 1), a[k - 1])
  }

  lemma {:induction false} PrefixRun(a: seq<Action>, k: nat)
    requires k <= |a|
    ensures Run(a[..k]) == StepAll(a, k)
  {
    hide Step, Do, Enabled;
    if k == 0 {
      assert a[..0] == [];
    } else {
      PrefixRun(a, k - 1);
      RunSnoc(a[..k - 1], a[k - 1]);
      assert a[..k - 1] + [a[k - 1]] == a[..k];
    }
  }

  /** The proviso is needed: in this run the late close unregisters the new connection, and an agent
      that handshakes afterwards stays unknown to a worker that is connected, complete and drained. */
  lemma LateCloseLosesKeys()
    ensures var n := Run(RECONNECT + [HandleClose(0)] + [CreateAgent("a", "k")] + [CheckHandshake("a")]
                         + [AnswerHandshake("a", "k")]);
            && |n.conns| == 2 && Live(n.conns[1]) && n.conns[1].stage.Complete? && n.conns[1].channel == []
            && "a" in n.greeted && "a" in n.table && "a" !in CacheOf(n, "w")
  {
    ReconnectRun();
    RunSnoc(RECONNECT, HandleClose(0));
    RunSnoc(RECONNECT + [HandleClose(0)], CreateAgent("a", "k"));
    RunSnoc(RECONNECT + [HandleClose(0)] + [CreateAgent("a", "k")], CheckHandshake("a"));
    RunSnoc(RECONNECT + [HandleClose(0)] + [CreateAgent("a", "k")] + [CheckHandshake("a")], AnswerHandshake("a", "k"));
  }

  // ---- Deleted agents ----

  lemma StepKeepsDeleted(n: Net, a: Action, id: AgentId, c: nat)
    requires Enabled(n, a) && id in n.created && id !in n.table && c < |Do(n, a).conns|
    ensures id in Do(n, a).created && id !in Do(n, a).table
    ensures Do(n, a).conns[c].stage.Queried? && id in Do(n, a).conns[c].stage.keys ==>
              c < |n.conns| && n.conns[c].stage == Do(n, a).conns[c].stage
  {
    hide Apply;
  }

  /** A deleted agent is gone for good: its row never comes back, and it is in no snapshot that was not
      already read before the delete. The caches are not touched, so a worker may still hold its key. */
  lemma {:induction false} DeletedStaysOut(before: seq<Action>, id: AgentId, after: seq<Action>, c: nat)
    requires id in Run(before).table
    requires c < |Run(before + [DeleteAgent(id)] + after).conns|
    ensures id !in Run(before + [DeleteAgent(id)] + after).table
    ensures id in Run(before + [DeleteAgent(id)] + after).created
    ensures var stage := Run(before + [DeleteAgent(id)] + after).conns[c].stage;
            stage.Queried? && id in stage.keys ==> c < |Run(before).conns| && Run(before).conns[c].stage == stage
    ensures Run(before + [DeleteAgent(id)]).caches == Run(before).caches
    decreases |after|
  {
    hide Do, Enabled;
    RunSnoc(before, DeleteAgent(id));
    CachedKeysAreGenuine(before);
    DeleteTakesOne(Run(before), id);
    var deleted := before + [DeleteAgent(id)];
    if after == [] {
      assert deleted + after == deleted;
    } else {
      var k := |after| - 1;
      var shorter := deleted + after[..k];
      assert deleted + after == shorter + [after[k]];
      RunSnoc(shorter, after[k]);
      StillDeleted(before, id, after[..k]);
      if Enabled(Run(shorter), after[k]) { StepKeepsDeleted(Run(shorter), after[k], id, c); }
      if c < |Run(shorter).conns| { DeletedStaysOut(before, id, after[..k], c); }
    }
  }

  lemma {:induction false} StillDeleted(before: seq<Action>, id: AgentId, after: seq<Action>)
    requires id in Run(before).table
    ensures id !in Run(before + [DeleteAgent(id)] + after).table
    ensures id in Run(before + [DeleteAgent(id)] + after).created
    decreases |after|
  {
    hide Do, Enabled;
    RunSnoc(before, DeleteAgent(id));
    CachedKeysAreGenuine(before);
    DeleteTakesOne(Run(before), id);
    var deleted := before + [DeleteAgent(id)];
    if after == [] {
      assert deleted + after == deleted;
    } else {
      var k := |after| - 1;
      assert deleted + after == deleted + after[..k] + [after[k]];
      RunSnoc(deleted + after[..k], after[k]);
      StillDeleted(before, id, after[..k]);
      var n := Run(deleted + after[..k]);
      if Enabled(n, after[k]) { NotCreatedAgain(n, after[k], id); }
    }
  }

  lemma NotCreatedAgain(n: Net, a: Action, id: AgentId)
    requires Enabled(n, a) && id in n.created && id !in n.table
    ensures id in Do(n, a).created && id !in Do(n, a).table
  {
    hide Apply, Push, DownAll;
  }

  lemma DeleteTakesOne(n: Net, id: AgentId)
    requires id in n.table
    ensures Enabled(n, DeleteAgent(id))
    ensures Do(n, DeleteAgent(id)) == n.(table := n.table - {id})
  {
  }
}
