/** The receiver's event handlers in the form they have in the server: they update the socket
    closures, the key cache and activeAgentSockets in place. Each is proved against the function
    of WorkerSessions that the run theorems are about. */
module TcpReceiver {
  import opened Shared
  import opened Frames
  import opened WorkerSessions
  import P = FrameParser

  class Receiver {
    const oracles: Oracles
    var socks: seq<Socket>
    var keyCache: map<AgentId, Key>
    var activeAgentSockets: map<AgentId, nat>
    ghost var everCached: set<(AgentId, Key)>

    ghost function View(): World
      reads this
    {
      World(socks, keyCache, activeAgentSockets, everCached)
    }

    constructor (o: Oracles)
      ensures oracles == o && View() == INITIAL
    {
      oracles := o;
      socks, keyCache, activeAgentSockets, everCached := [], map[], map[], {};
    }

    method SocketWrite(s: nat, frame: Frame)
      requires s < |socks|
      modifies this`socks
      ensures socks == old(socks)[s := Write(old(socks)[s], frame)]
    {
      if !socks[s].destroyed && !socks[s].closed {
        socks := socks[s := socks[s].(out := socks[s].out + [frame])];
      }
    }

    method Destroy(s: nat)
      requires s < |socks|
      modifies this`socks
      ensures socks == old(socks)[s := old(socks)[s].(destroyed := true)]
    {
      socks := socks[s := socks[s].(destroyed := true)];
    }

    method UpdateKeyCache(id: AgentId, key: Key)
      modifies this
      ensures View() == Do(oracles, old(View()), Learn(id, key))
    {
      keyCache := keyCache[id := key];
      everCached := everCached + {(id, key)};
    }

    method OnAuthFrame(s: nat, token: seq<byte>)
      requires s < |socks|
      modifies this
      ensures View() == OnAuth(oracles, old(View()), s, token)
    {
      ghost var before := View();
      var call := |socks[s].admitted|;
      socks := socks[s := socks[s].(admitted := socks[s].admitted + [None])];
      var decoded := oracles.verify(token);
      if decoded.None? {
        SocketWrite(s, Response(2));
        Destroy(s);
        return;
      }
      var agentId := decoded.value;
      socks := socks[s := socks[s].(agentId := Some(agentId))];
      if agentId !in keyCache || keyCache[agentId] == "" {
        SocketWrite(s, Response(1));
        Destroy(s);
        return;
      }
      var granted := if socks[s].granted.None? then Some(call) else socks[s].granted;
      socks := socks[s := socks[s].(authenticated := true, granted := granted)];
      activeAgentSockets := activeAgentSockets[agentId := s];
      SocketWrite(s, Response(0));
    }

    method OnFrameReceived(s: nat)
      requires s < |socks| && |Calls(socks[s])| > 0
      modifies this
      ensures View() == OnFrame(oracles, old(View()), s)
    {
      var calls := Calls(socks[s]);
      var Frame(kind, payload) := calls[|calls| - 1];
      if kind == AUTH {
        OnAuthFrame(s, payload);
      } else if kind == DATA {
        var k := socks[s];
        var key := None;
        if k.authenticated && k.agentId.Some? && k.agentId.value != "" {
          if k.agentId.value in keyCache && keyCache[k.agentId.value] != "" {
            key := Some(keyCache[k.agentId.value]);
          }
        }
        socks := socks[s := k.(admitted := k.admitted + [key])];
        if key.None? {
          Destroy(s);
        } else {
          socks := socks[s := socks[s].(job := Some(Decrypting(key.value)))];
        }
      } else {
        socks := socks[s := socks[s].(admitted := socks[s].admitted + [None])];
        if kind == PING {
          SocketWrite(s, Frame(PONG, []));
        }
      }
    }

    method OnSocketClosed(s: nat)
      requires s < |socks|
      modifies this
      ensures View() == OnClose(old(View()), s)
    {
      var agentId := socks[s].agentId;
      socks := socks[s := socks[s].(closed := true)];
      if agentId.Some? && agentId.value != "" && agentId.value in activeAgentSockets
         && activeAgentSockets[agentId.value] == s {
        activeAgentSockets := activeAgentSockets - {agentId.value};
      }
    }

    method SendAlertToAgent(agent: AgentId, payload: seq<byte>)
      modifies this
      ensures View() == OnAlert(old(View()), agent, payload)
    {
      if agent !in activeAgentSockets || activeAgentSockets[agent] >= |socks| {
        return;
      }
      if |payload| < U32_RANGE {
        SocketWrite(activeAgentSockets[agent], Frame(ALERT, payload));
      }
    }

    /** The loop over the records of one decrypted batch, when nothing else runs in between: one
        log entry for every record of a handled kind, in order. */
    method HandleRecords(s: nat, call: nat, key: Key, records: seq<Record>)
      requires s < |socks| && socks[s].agentId.Some?
      modifies this`socks
      ensures socks == old(socks)[s := old(socks)[s].(log :=
                old(socks)[s].log + Entries(call, old(socks)[s].agentId.value, key, records))]
    {
      var rest := records;
      var agent := socks[s].agentId.value;
      assert old(socks)[s := old(socks)[s]] == socks;
      while rest != []
        invariant |socks| == |old(socks)| && socks == old(socks)[s := old(socks)[s].(log := socks[s].log)]
        invariant socks[s].log + Entries(call, agent, key, rest) ==
                  old(socks)[s].log + Entries(call, agent, key, records)
      {
        if rest[0].kind in HANDLED_KINDS {
          var entry := Entry(call, agent, key, rest[0]);
          assert socks[s].log + ([entry] + Entries(call, agent, key, rest[1..])) ==
                 (socks[s].log + [entry]) + Entries(call, agent, key, rest[1..]);
          socks := socks[s := socks[s].(log := socks[s].log + [entry])];
        } else {
          assert [] + Entries(call, agent, key, rest[1..]) == Entries(call, agent, key, rest[1..]);
        }
        rest := rest[1..];
      }
      assert socks[s].log + [] == socks[s].log;
    }
  }
}
