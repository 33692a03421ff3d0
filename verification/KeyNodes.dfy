/** The two ends of key distribution with their state updated in place: the master's handlers and
    the worker's message handler, proved against the actions of KeySync. */
module KeyNodes {
  import opened Shared
  import opened KeySync

  // Every registry entry is a connection of that worker.
  ghost predicate WellRegistered(n: Net) {
    forall w :: w in n.activeWorkers ==>
      n.activeWorkers[w] < |n.conns| && n.conns[n.activeWorkers[w]].worker == w
  }

  lemma StepKeepsWellRegistered(n: Net, a: Action)
    requires WellRegistered(n) && Enabled(n, a)
    ensures WellRegistered(Do(n, a))
  {
    hide Apply;
  }

  lemma {:induction false} RunsAreWellRegistered(actions: seq<Action>)
    ensures WellRegistered(Run(actions))
  {
    hide Do, Enabled;
    if actions != [] {
      var n, a := Run(actions[..|actions| - 1]), actions[|actions| - 1];
      RunsAreWellRegistered(actions[..|actions| - 1]);
      if Enabled(n, a) { StepKeepsWellRegistered(n, a); }
    }
  }

  // A row of the agents table as the snapshot query returns it; decrypt is the AES-GCM oracle.
  datatype Row = Row(id: AgentId, cipher: string)

  class Master {
    var table: Keys
    var activeWorkers: map<WorkerId, nat>
    var conns: seq<Conn>
    ghost var created: Keys
    ghost var checked: set<(AgentId, Key)>
    ghost var greeted: set<AgentId>
    ghost var caches: map<WorkerId, Keys>

    ghost function View(): Net
      reads this
    {
      Net(table, created, checked, greeted, activeWorkers, conns, caches)
    }

    constructor ()
      ensures View() == INITIAL
    {
      table, activeWorkers, conns, created := map[], map[], [], map[];
      checked, greeted, caches := {}, {}, map[];
    }

    method CreateAgent(id: AgentId, key: Key)
      requires id !in created
      modifies this
      ensures View() == Do(old(View()), Action.CreateAgent(id, key))
    {
      table := table[id := key];
      created := created[id := key];
    }

    // owned: the caller's user id is the row's; a delete by anyone else matches no row.
    method DeleteAgent(id: AgentId, owned: bool) returns (found: bool)
      modifies this
      ensures found <==> owned && id in old(table)
      ensures View() == if found then Do(old(View()), Action.DeleteAgent(id)) else old(View())
    {
      found := owned && id in table;
      if found {
        table := table - {id};
      }
    }

    /** The loop over the registered workers after a handshake. */
    method AnswerHandshake(id: AgentId, key: Key)
      requires (id, key) in checked && WellRegistered(View())
      modifies this
      ensures View() == Do(old(View()), Action.AnswerHandshake(id, key))
    {
      ghost var before := View();
      var message := NewAgentKey(id, key);
      var left := activeWorkers.Keys;
      while left != {}
        invariant left <= activeWorkers.Keys
        invariant View() == before.(conns := conns) && |conns| == |before.conns|
        invariant forall i :: 0 <= i < |conns| ==>
                    conns[i] == if InRegistry(before, i) && before.conns[i].worker !in left
                                then Send(before.conns[i], message) else before.conns[i]
        decreases |left|
      {
        var w :| w in left;
        var c := activeWorkers[w];
        if conns[c].up {
          conns := conns[c := conns[c].(channel := conns[c].channel + [message])];
        }
        left := left - {w};
      }
      greeted := greeted + {id};
      assert conns == Push(before, message);
    }

    method RegisterWorker(c: nat)
      requires Enabled(View(), Register(c))
      modifies this
      ensures View() == Do(old(View()), Register(c))
    {
      activeWorkers := activeWorkers[conns[c].worker := c];
      conns := conns[c := conns[c].(stage := Registered)];
      if conns[c].up {
        conns := conns[c := conns[c].(channel := conns[c].channel + [Welcome])];
      }
    }

    method OnClose(c: nat)
      requires Enabled(View(), HandleClose(c))
      modifies this
      ensures View() == Do(old(View()), HandleClose(c))
    {
      conns := conns[c := conns[c].(closeSeen := true)];
      if !conns[c].stage.Anonymous? {
        activeWorkers := activeWorkers - {conns[c].worker};
      }
    }

    /** The loop that builds the snapshot: with the primary key on agent_id, exactly one decrypted
        key for every row. */
    method BuildAgentKeys(rows: seq<Row>, decrypt: string -> Key) returns (agentKeys: Keys)
      requires forall i, j :: 0 <= i < j < |rows| ==> rows[i].id != rows[j].id
      ensures agentKeys.Keys == set i | 0 <= i < |rows| :: rows[i].id
      ensures forall i :: 0 <= i < |rows| ==>
                rows[i].id in agentKeys && agentKeys[rows[i].id] == decrypt(rows[i].cipher)
    {
      agentKeys := map[];
      for k := 0 to |rows|
        invariant agentKeys.Keys == set i | 0 <= i < k :: rows[i].id
        invariant forall i :: 0 <= i < k ==> rows[i].id in agentKeys && agentKeys[rows[i].id] == decrypt(rows[i].cipher)
      {
        agentKeys := agentKeys[rows[k].id := decrypt(rows[k].cipher)];
      }
    }
  }

  class Worker {
    var keyCache: Keys

    constructor ()
      ensures keyCache == map[]
    {
      keyCache := map[];
    }

    method UpdateKeyCache(id: AgentId, key: Key)
      modifies this
      ensures keyCache == old(keyCache)[id := key]
    {
      keyCache := keyCache[id := key];
    }

    /** The loop over a snapshot: its keys are put one by one; other agents keep theirs. */
    method MergeKeys(keys: Keys)
      modifies this
      ensures keyCache == old(keyCache) + keys
    {
      var left := keys.Keys;
      while left != {}
        invariant left <= keys.Keys
        invariant keyCache == old(keyCache) + (keys - left)
        decreases |left|
      {
        var id :| id in left;
        assert keys - (left - {id}) == (keys - left)[id := keys[id]];
        UpdateKeyCache(id, keys[id]);
        left := left - {id};
      }
      assert keys - {} == keys;
    }

    method OnMessage(m: Msg)
      modifies this
      ensures keyCache == Apply(old(keyCache), m)
    {
      match m
      case KeysSync(keys) => MergeKeys(keys);
      case NewAgentKey(id, key) => UpdateKeyCache(id, key);
      case _ =>
    }
  }
}
