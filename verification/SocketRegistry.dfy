/** activeAgentSockets: when does every entry name a live, authenticated socket of its agent? */
module SocketRegistry {
  import opened Shared
  import opened Frames
  import opened WorkerSessions
  import P = FrameParser
  import W = WorkerWire

  ghost predicate RegistryOk(w: World) {
    forall a :: a in w.registry ==>
      && w.registry[a] < |w.socks|
      && var k := w.socks[w.registry[a]]; k.authenticated && k.agentId == Some(a) && !k.closed
  }

  // The Go client sends one Auth frame, first.
  predicate AuthOnlyFirst(calls: seq<Frame>) {
    forall i :: 0 < i < |calls| ==> calls[i].kind != AUTH
  }

  /** One Auth frame with a valid token keeps the registry right exactly when the socket is not
      registered under another id and, if the key is known, its close has not been handled yet. */
  lemma AuthKeepsRegistryIff(o: Oracles, w: World, s: nat, token: seq<byte>)
    requires RegistryOk(w) && s < |w.socks| && o.verify(token).Some?
    ensures var id := o.verify(token).value;
            RegistryOk(OnAuth(o, w, s, token)) <==>
              && (forall a :: a in w.registry && w.registry[a] == s ==> a == id)
              && (KeyFor(w, id).Some? ==> !w.socks[s].closed)
  {
    var id := o.verify(token).value;
    var n := OnAuth(o, w, s, token);
    if RegistryOk(n) {
      forall a | a in w.registry && w.registry[a] == s ensures a == id {
        assert a in n.registry;
      }
      if KeyFor(w, id).Some? { assert n.registry[id] == s; }
    } else {
      var a :| a in n.registry &&
        !(n.registry[a] < |n.socks| && n.socks[n.registry[a]].authenticated
          && n.socks[n.registry[a]].agentId == Some(a) && !n.socks[n.registry[a]].closed);
      assert a != id ==> a in w.registry && n.registry[a] == w.registry[a];
    }
  }

  // The master signs tokens only for ids it generated itself, which are not empty.
  ghost predicate NamesAgents(o: Oracles) {
    forall token :: o.verify(token) != Some("")
  }

  lemma NamedIsNotEmpty(o: Oracles, calls: seq<Frame>)
    requires NamesAgents(o)
    ensures LastVerified(o, calls) != Some("")
  {
  }

  // A parser segment with at most one callback start, seen from the registry.
  lemma AdvanceKeepsRegistry(o: Oracles, w: World, s: nat, e: P.Event)
    requires s < |w.socks| && SockOk(o, w.socks[s], w.everCached) && RegistryOk(w)
    requires e.Settled? ==> P.CallPending(w.socks[s].parser)
    requires e.Chunk? ==> !w.socks[s].closed
    ensures var n := Advance(o, w, s, P.Step(w.socks[s].parser, e));
            && Calls(w.socks[s]) <= Calls(n.socks[s])
            && (AuthOnlyFirst(Calls(n.socks[s])) ==> RegistryOk(n))
  {
    hide ParserOk, P.Step, OnAuth, Expected, Outstanding, Admission;
    var k := w.socks[s];
    var q := P.Step(k.parser, e);
    ParserMoves(k.parser, e);
    var moved := w.(socks := w.socks[s := k.(parser := q)]);
    if |q.calls| > |Calls(k)| {
      var f := q.calls[|Calls(k)|];
      OnFrameKeepsParser(o, moved, s);
      if f.kind == AUTH {
        if AuthOnlyFirst(q.calls) {
          assert Calls(k) == [] && k.agentId.None?;
          FirstAuthKeepsRegistry(o, moved, s, f.payload);
        }
      } else {
        assert RegistryOk(OnFrame(o, moved, s));
      }
    }
  }

  lemma OnFrameKeepsParser(o: Oracles, w: World, s: nat)
    requires s < |w.socks| && |Calls(w.socks[s])| > 0
    ensures OnFrame(o, w, s).socks[s].parser == w.socks[s].parser
  {
  }

  lemma FirstAuthKeepsRegistry(o: Oracles, w: World, s: nat, token: seq<byte>)
    requires s < |w.socks| && RegistryOk(w) && w.socks[s].agentId.None? && !w.socks[s].closed
    ensures RegistryOk(OnAuth(o, w, s, token))
  {
    if o.verify(token).Some? {
      AuthKeepsRegistryIff(o, w, s, token);
    }
  }

  lemma CloseKeepsRegistry(w: World, s: nat)
    requires RegistryOk(w) && s < |w.socks| && w.socks[s].agentId != Some("")
    ensures RegistryOk(OnClose(w, s))
  {
  }

  lemma StepKeepsRegistry(o: Oracles, w: World, e: Event)
    requires NamesAgents(o) && WorldOk(o, w) && Enabled(w, e) && RegistryOk(w)
    requires forall t :: 0 <= t < |Do(o, w, e).socks| ==> AuthOnlyFirst(Calls(Do(o, w, e).socks[t]))
    ensures RegistryOk(Do(o, w, e))
  {
    hide ParserOk, HistoryOk, P.Receive, P.Settle, OnFrame, AuthOnlyFirst;
    match e
    case Data(s, chunk) =>
      hide Advance, RegistryOk;
      assert P.Step(w.socks[s].parser, P.Chunk(chunk)) == P.Receive(w.socks[s].parser, chunk);
      AdvanceLocal(o, w, s, P.Receive(w.socks[s].parser, chunk));
      AdvanceKeepsRegistry(o, w, s, P.Chunk(chunk));
    case Resume(s) =>
      if w.socks[s].job.None? {
        hide Advance, RegistryOk;
        AdvanceLocal(o, w, s, P.Settle(w.socks[s].parser));
        AdvanceKeepsRegistry(o, w, s, P.Settled);
      }
    case Closed(s) =>
      AgentIdNotEmpty(o, w, s);
      CloseKeepsRegistry(w, s);
    case _ =>
  }

  lemma AgentIdNotEmpty(o: Oracles, w: World, s: nat)
    requires NamesAgents(o) && WorldOk(o, w) && s < |w.socks|
    ensures w.socks[s].agentId != Some("")
  {
    hide ParserOk, Expected, Outstanding, AdmissionOk;
    assert SockOk(o, w.socks[s], w.everCached);
    NamedIsNotEmpty(o, Calls(w.socks[s])[..|w.socks[s].admitted|]);
  }

  /** In every run in which each socket's only Auth frame is its first frame, every registry entry
      names an authenticated socket of that agent whose close has not been handled. */
  lemma {:induction false} RegistryIsLive(o: Oracles, events: seq<Event>)
    requires NamesAgents(o)
    requires forall t :: 0 <= t < |Run(o, events).socks| ==> AuthOnlyFirst(Calls(Run(o, events).socks[t]))
    ensures RegistryOk(Run(o, events))
  {
    hide Do, WorldOk, AuthOnlyFirst, RegistryOk;
    if events == [] {
      NothingRegistered();
    } else {
      var init, e := events[..|events| - 1], events[|events| - 1];
      var w, n := Run(o, init), Run(o, events);
      ReachableOk(o, init);
      if Enabled(w, e) {
        CallsOnlyGrow(o, w, e);
        forall t | 0 <= t < |w.socks| ensures AuthOnlyFirst(Calls(w.socks[t])) {
          PrefixAuthOnlyFirst(Calls(w.socks[t]), Calls(n.socks[t]));
        }
        RegistryIsLive(o, init);
        StepKeepsRegistry(o, w, e);
      } else {
        RegistryIsLive(o, init);
      }
    }
  }

  lemma NothingRegistered()
    ensures RegistryOk(INITIAL)
  {
  }

  lemma PrefixAuthOnlyFirst(calls: seq<Frame>, more: seq<Frame>)
    requires calls <= more && AuthOnlyFirst(more)
    ensures AuthOnlyFirst(calls)
  {
  }

  lemma CallsOnlyGrow(o: Oracles, w: World, e: Event)
    requires WorldOk(o, w) && Enabled(w, e)
    ensures |w.socks| <= |Do(o, w, e).socks|
    ensures forall t :: 0 <= t < |w.socks| ==> Calls(w.socks[t]) <= Calls(Do(o, w, e).socks[t])
  {
    hide SockOk, P.Receive, P.Settle, OnFrame, WorldOk;
    match e
    case Data(s, chunk) =>
      assert P.Step(w.socks[s].parser, P.Chunk(chunk)) == P.Receive(w.socks[s].parser, chunk);
      AdvanceGrows(o, w, s, P.Chunk(chunk));
      AdvanceLocal(o, w, s, P.Receive(w.socks[s].parser, chunk));
    case Resume(s) =>
      if w.socks[s].job.None? {
        AdvanceGrows(o, w, s, P.Settled);
        AdvanceLocal(o, w, s, P.Settle(w.socks[s].parser));
      }
    case _ =>
  }

  lemma AdvanceGrows(o: Oracles, w: World, s: nat, e: P.Event)
    requires WorldOk(o, w) && s < |w.socks|
    requires e.Settled? ==> P.CallPending(w.socks[s].parser)
    ensures Calls(w.socks[s]) <= Calls(Advance(o, w, s, P.Step(w.socks[s].parser, e)).socks[s])
  {
    hide ParserOk, HistoryOk, P.Step, OnFrame;
    var k := w.socks[s];
    assert SockOk(o, k, w.everCached);
    ParserMoves(k.parser, e);
    var moved := w.(socks := w.socks[s := k.(parser := P.Step(k.parser, e))]);
    if |Calls(moved.socks[s])| > |Calls(k)| { OnFrameKeepsParser(o, moved, s); }
  }

  // The newest frame of a socket is an Auth whose token names the agent.
  predicate JustNamed(o: Oracles, k: Socket, a: AgentId) {
    Calls(k) != [] && var f := Calls(k)[|Calls(k)| - 1]; f.kind == AUTH && o.verify(f.payload) == Some(a)
  }

  /** An entry is replaced or removed only by the close of its own socket, or replaced by the socket
      whose newest frame, called back in this very step, is an Auth of the same agent; in particular
      the close of a superseded socket leaves its replacement in place. */
  lemma EntryOutlivesOthers(o: Oracles, w: World, e: Event, a: AgentId)
    requires Enabled(w, e) && a in w.registry
    requires var n := Do(o, w, e); a !in n.registry || n.registry[a] != w.registry[a]
    ensures var n := Do(o, w, e);
            || (e == Closed(w.registry[a]) && a !in n.registry)
            || ((e.Data? || e.Resume?) && a in n.registry && n.registry[a] == e.s && JustNamed(o, n.socks[e.s], a)
                && |Calls(n.socks[e.s])| == |Calls(w.socks[e.s])| + 1)
  {
    hide Take, KeyFor;
  }

  /** Every change of the registry, and no other: an Auth that verifies and whose agent has a cached
      key registers its socket; a close takes the entry of its agent if it names this very socket. */
  lemma RegistryFollowsGrants(o: Oracles, w: World, e: Event)
    requires WorldOk(o, w) && Enabled(w, e)
    ensures var n := Do(o, w, e);
            if e.Data? || e.Resume? then
              var news := W.NewCalls(w, n, e.s);
              var id := if news != [] && news[0].kind == AUTH then o.verify(news[0].payload) else None;
              if id.Some? && W.KeyCached(w.keys, id.value) then n.registry == w.registry[id.value := e.s]
              else n.registry == w.registry
            else if e.Closed? then
              var id := w.socks[e.s].agentId;
              if id.Some? && id.value != "" && id.value in w.registry && w.registry[id.value] == e.s
              then n.registry == w.registry - {id.value} else n.registry == w.registry
            else n.registry == w.registry
  {
    hide SockOk, P.Receive, P.Settle, Advance;
    match e
    case Data(s, chunk) =>
      assert P.Step(w.socks[s].parser, P.Chunk(chunk)) == P.Receive(w.socks[s].parser, chunk);
      AdvanceRegisters(o, w, s, P.Chunk(chunk));
    case Resume(s) =>
      if w.socks[s].job.None? { AdvanceRegisters(o, w, s, P.Settled); }
    case _ =>
  }

  lemma AdvanceRegisters(o: Oracles, w: World, s: nat, e: P.Event)
    requires s < |w.socks| && SockOk(o, w.socks[s], w.everCached)
    requires e.Settled? ==> P.CallPending(w.socks[s].parser)
    ensures var n := Advance(o, w, s, P.Step(w.socks[s].parser, e));
            var news := W.NewCalls(w, n, s);
            var id := if news != [] && news[0].kind == AUTH then o.verify(news[0].payload) else None;
            n.registry == if id.Some? && W.KeyCached(w.keys, id.value) then w.registry[id.value := s] else w.registry
  {
    hide ParserOk, HistoryOk, P.Step;
    ParserMoves(w.socks[s].parser, e);
    AdvanceLocal(o, w, s, P.Step(w.socks[s].parser, e));
  }

  lemma RunSnoc(o: Oracles, events: seq<Event>, e: Event)
    ensures var w := Run(o, events);
            Run(o, events + [e]) == if Enabled(w, e) then Do(o, w, e) else w
  {
    assert (events + [e])[..|events|] == events;
  }

  // One byte of token is enough for the witness: 1 names agent "A", 2 names agent "B".
  const TWO_AGENTS := Oracles(
    (token: seq<byte>) => if token == [1] then Some("A") else if token == [2] then Some("B") else None,
    (payload: seq<byte>, key: Key) => None)

  const PREPARE: seq<Event> := [Learn("A", "k"), Learn("B", "k"), Connect]
  const BOTH: Event := Data(0, Encode(Frame(AUTH, [1])) + Encode(Frame(AUTH, [2])))

  const BEFORE := World([FRESH], map["A" := "k", "B" := "k"], map[], {("A", "k"), ("B", "k")})

  lemma TwoAuthsPrepared()
    ensures Run(TWO_AGENTS, PREPARE) == BEFORE
  {
    hide Advance, OnResume, OnClose, OnAlert, TWO_AGENTS;
    var e := PREPARE;
    assert e[..2] == [e[0], e[1]] && e[..2][..1] == [e[0]] && [e[0]][..0] == [];
    assert Run(TWO_AGENTS, []) == INITIAL;
    var w1 := Run(TWO_AGENTS, [e[0]]);
    assert w1 == Do(TWO_AGENTS, INITIAL, e[0]);
    assert w1 == World([], map["A" := "k"], map[], {("A", "k")});
    var w2 := Run(TWO_AGENTS, e[..2]);
    assert w2 == World([], map["A" := "k", "B" := "k"], map[], {("A", "k"), ("B", "k")});
  }

  lemma FirstAuthStep()
    ensures var w := Do(TWO_AGENTS, BEFORE, BOTH);
            && w.keys == BEFORE.keys && w.registry == map["A" := 0] && |w.socks| == 1
            && w.socks[0].parser == P.State(Encode(Frame(AUTH, [2])), true, [Frame(AUTH, [1])], 0)
            && w.socks[0].job.None? && !w.socks[0].closed
  {
    hide Encode, Take;
    var fA, rest := Frame(AUTH, [1]), Encode(Frame(AUTH, [2]));
    TakeEncoded(fA, rest);
    assert [] + BOTH.chunk == BOTH.chunk && [] + [fA] == [fA];
  }

  lemma SecondAuthStep(w: World)
    requires w.keys == BEFORE.keys && w.registry == map["A" := 0] && |w.socks| == 1
    requires w.socks[0].parser == P.State(Encode(Frame(AUTH, [2])), true, [Frame(AUTH, [1])], 0)
    requires w.socks[0].job.None? && !w.socks[0].closed
    ensures var n := Do(TWO_AGENTS, w, Resume(0));
            |n.socks| == 1 && n.registry == map["A" := 0, "B" := 0]
            && n.socks[0].agentId == Some("B") && !n.socks[0].closed
  {
    hide Encode, Take;
    var fB := Frame(AUTH, [2]);
    TakeEncoded(fB, []);
    assert Encode(fB) + [] == Encode(fB);
  }

  /** Without the one-Auth assumption the registry can go stale: a socket that authenticates as A
      and then as B leaves the entry of A behind when it closes. */
  lemma SecondAuthLeavesStaleEntry()
    ensures NamesAgents(TWO_AGENTS)
    ensures var w := Run(TWO_AGENTS, PREPARE + [BOTH] + [Resume(0)] + [Closed(0)]);
            |w.socks| == 1 && w.socks[0].closed && "A" in w.registry && w.registry["A"] == 0 && !RegistryOk(w)
  {
    hide Encode, Do, OnFrame;
    var o := TWO_AGENTS;
    TwoAuthsPrepared();
    RunSnoc(o, PREPARE, BOTH);
    FirstAuthStep();
    var w := Run(o, PREPARE + [BOTH]);
    RunSnoc(o, PREPARE + [BOTH], Resume(0));
    SecondAuthStep(w);
    RunSnoc(o, PREPARE + [BOTH] + [Resume(0)], Closed(0));
    CloseOfB(Run(o, PREPARE + [BOTH] + [Resume(0)]));
  }

  lemma CloseOfB(w: World)
    requires |w.socks| == 1 && w.registry == map["A" := 0, "B" := 0]
    requires w.socks[0].agentId == Some("B") && !w.socks[0].closed
    ensures var n := Do(TWO_AGENTS, w, Closed(0));
            |n.socks| == 1 && n.socks[0].closed && "A" in n.registry && n.registry["A"] == 0
  {
  }
}
