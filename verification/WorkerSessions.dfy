/** The worker's TCP server: one authentication state machine per socket on top of the frame
    parser, the key cache, and the registry of sockets that alerts are sent to.

    A callback suspends only while a batch is decrypted and between two records; each event below
    is what runs between two suspensions. Token verification and decryption are oracles. */
module WorkerSessions {
  import opened Shared
  import opened Frames
  import P = FrameParser

  datatype Record = Record(kind: string, body: string)

  const HANDLED_KINDS := {"file_integrity", "log_monitoring", "net_pro", "software_list"}

  // verify: jwt.verify, None when it throws. decrypt: decryptAgentPayload, None for null.
  datatype Oracles = Oracles(
    verify: seq<byte> -> Option<AgentId>,
    decrypt: (seq<byte>, Key) -> Option<seq<Record>>)

  // What a Data callback still has to do.
  datatype Job = Decrypting(key: Key) | Handling(key: Key, todo: seq<Record>)

  datatype Entry = Entry(call: nat, agent: AgentId, key: Key, record: Record)

  // admitted[i]: the key with which call i, a Data frame, was let in; granted: the call that first
  // authenticated the socket; log: the records given to rule handlers, with the id they were
  // handled under. These three only record history.
  datatype Socket = Socket(
    parser: P.State, authenticated: bool, agentId: Option<AgentId>, job: Option<Job>,
    out: seq<Frame>, destroyed: bool, closed: bool,
    admitted: seq<Option<Key>>, granted: Option<nat>, log: seq<Entry>)

  const FRESH := Socket(P.INITIAL, false, None, None, [], false, false, [], None, [])

  // everCached: every (id, key) pair that was ever in the cache.
  datatype World = World(socks: seq<Socket>, keys: map<AgentId, Key>, registry: map<AgentId, nat>,
                         everCached: set<(AgentId, Key)>)

  const INITIAL := World([], map[], map[], {})

  datatype Event =
    | Connect
    | Data(s: nat, chunk: seq<byte>)
    | Resume(s: nat)
    | Closed(s: nat)
    | Learn(id: AgentId, key: Key)
    | Alert(agent: AgentId, payload: seq<byte>)

  function Response(status: byte): Frame {
    Frame(AUTH_RESPONSE, [status])
  }

  // A key that is missing, null or empty counts as missing.
  function KeyFor(w: World, id: AgentId): Option<Key> {
    if id in w.keys && w.keys[id] != "" then Some(w.keys[id]) else None
  }

  // Writing to a socket that is destroyed or closed has no effect.
  function Write(k: Socket, f: Frame): Socket {
    if k.destroyed || k.closed then k else k.(out := k.out + [f])
  }

  function Calls(k: Socket): seq<Frame> {
    k.parser.calls
  }

  function OnAuth(o: Oracles, w: World, s: nat, token: seq<byte>): World
    requires s < |w.socks|
  {
    var k := w.socks[s].(admitted := w.socks[s].admitted + [None]);
    match o.verify(token)
    case None =>
      w.(socks := w.socks[s := Write(k, Response(2)).(destroyed := true)])
    case Some(id) =>
      var named := k.(agentId := Some(id));
      match KeyFor(w, id)
      case None =>
        w.(socks := w.socks[s := Write(named, Response(1)).(destroyed := true)])
      case Some(_) =>
        var first := if k.granted.None? then Some(|k.admitted| - 1) else k.granted;
        w.(socks := w.socks[s := Write(named.(authenticated := true, granted := first), Response(0))],
           registry := w.registry[id := s])
  }

  // The key a Data frame may be decrypted with, if the socket may send data at all.
  function Admission(w: World, k: Socket): Option<Key> {
    if !k.authenticated || k.agentId.None? || k.agentId.value == "" then None
    else KeyFor(w, k.agentId.value)
  }

  // The callback, from its call with the newest frame to its first await or its end.
  function OnFrame(o: Oracles, w: World, s: nat): World
    requires s < |w.socks| && |Calls(w.socks[s])| > 0
  {
    var k := w.socks[s];
    var f := Calls(k)[|Calls(k)| - 1];
    if f.kind == AUTH then OnAuth(o, w, s, f.payload)
    else if f.kind == DATA then
      var key := Admission(w, k);
      var k' := k.(admitted := k.admitted + [key]);
      w.(socks := w.socks[s := if key.None? then k'.(destroyed := true)
                               else k'.(job := Some(Decrypting(key.value)))])
    else
      var k' := k.(admitted := k.admitted + [None]);
      w.(socks := w.socks[s := if f.kind == PING then Write(k', Frame(PONG, [])) else k'])
  }

  // Lets the parser of socket s move on to p, and starts the callback if it made a call.
  function Advance(o: Oracles, w: World, s: nat, p: P.State): World
    requires s < |w.socks|
  {
    var moved := w.(socks := w.socks[s := w.socks[s].(parser := p)]);
    if |p.calls| > |Calls(w.socks[s])| then OnFrame(o, moved, s) else moved
  }

  // One more segment of a pending callback, or its settlement.
  function OnResume(o: Oracles, w: World, s: nat): World
    requires s < |w.socks| && P.CallPending(w.socks[s].parser)
  {
    var k := w.socks[s];
    var last := |Calls(k)| - 1;
    match k.job
    case None => Advance(o, w, s, P.Settle(k.parser))
    case Some(Decrypting(key)) =>
      var job :=
        match o.decrypt(Calls(k)[last].payload, key)
        case None => None
        case Some(records) => Some(Handling(key, records));
      w.(socks := w.socks[s := k.(job := job)])
    case Some(Handling(key, todo)) =>
      if todo == [] then w.(socks := w.socks[s := k.(job := None)])
      else
        // the id is read from the closure for every record, after the awaits
        var agent := if k.agentId.Some? then k.agentId.value else "";
        var log := if todo[0].kind in HANDLED_KINDS then k.log + [Entry(last, agent, key, todo[0])] else k.log;
        w.(socks := w.socks[s := k.(job := Some(Handling(key, todo[1..])), log := log)])
  }

  function OnClose(w: World, s: nat): World
    requires s < |w.socks|
  {
    var k := w.socks[s];
    var mine := k.agentId.Some? && k.agentId.value != "" &&
                k.agentId.value in w.registry && w.registry[k.agentId.value] == s;
    w.(socks := w.socks[s := k.(closed := true)],
       registry := if mine then w.registry - {k.agentId.value} else w.registry)
  }

  // A payload whose length does not fit 32 bits makes the length write throw, before anything is sent.
  function OnAlert(w: World, agent: AgentId, payload: seq<byte>): World {
    if agent in w.registry && w.registry[agent] < |w.socks| && Fits(Frame(ALERT, payload)) then
      var s := w.registry[agent];
      w.(socks := w.socks[s := Write(w.socks[s], Frame(ALERT, payload))])
    else w
  }

  predicate Enabled(w: World, e: Event) {
    match e
    case Data(s, _) => s < |w.socks| && !w.socks[s].destroyed && !w.socks[s].closed
    case Resume(s) => s < |w.socks| && P.CallPending(w.socks[s].parser)
    case Closed(s) => s < |w.socks| && !w.socks[s].closed
    case _ => true
  }

  function Do(o: Oracles, w: World, e: Event): World
    requires Enabled(w, e)
  {
    match e
    case Connect => w.(socks := w.socks + [FRESH])
    case Data(s, chunk) => Advance(o, w, s, P.Receive(w.socks[s].parser, chunk))
    case Resume(s) => OnResume(o, w, s)
    case Closed(s) => OnClose(w, s)
    case Learn(id, key) => w.(keys := w.keys[id := key], everCached := w.everCached + {(id, key)})
    case Alert(agent, payload) => OnAlert(w, agent, payload)
  }

  function Run(o: Oracles, events: seq<Event>): World {
    if events == [] then INITIAL
    else
      var w := Run(o, events[..|events| - 1]);
      var e := events[|events| - 1];
      if Enabled(w, e) then Do(o, w, e) else w
  }

  // ---- What a socket has done, told from its frames alone ----

  function LastVerified(o: Oracles, calls: seq<Frame>): Option<AgentId> {
    if calls == [] then None
    else
      var f := calls[|calls| - 1];
      if f.kind == AUTH && o.verify(f.payload).Some? then o.verify(f.payload)
      else LastVerified(o, calls[..|calls| - 1])
  }

  function Entries(call: nat, agent: AgentId, key: Key, records: seq<Record>): seq<Entry> {
    if records == [] then []
    else (if records[0].kind in HANDLED_KINDS then [Entry(call, agent, key, records[0])] else [])
         + Entries(call, agent, key, records[1..])
  }

  function Decrypted(o: Oracles, payload: seq<byte>, key: Key): seq<Record> {
    match o.decrypt(payload, key) case None => [] case Some(records) => records
  }

  // Reference: for each admitted Data frame in turn, all its records of a handled kind, in order,
  // under the id of the last token verified before that frame.
  function Expected(o: Oracles, calls: seq<Frame>, admitted: seq<Option<Key>>): seq<Entry>
    requires |calls| == |admitted|
  {
    if calls == [] then []
    else
      var n := |calls| - 1;
      var before := Expected(o, calls[..n], admitted[..n]);
      var agent := LastVerified(o, calls[..n]);
      if admitted[n].Some? && agent.Some? then
        before + Entries(n, agent.value, admitted[n].value, Decrypted(o, calls[n].payload, admitted[n].value))
      else before
  }

  // ---- Invariants of one socket ----

  ghost predicate ParserOk(p: P.State) {
    P.Inv(p, EncodeAll(p.calls) + p.buffer)
  }

  // Call i was let in under the id and with a key of that id, after the socket was authenticated.
  ghost predicate AdmissionOk(o: Oracles, k: Socket, i: nat, ever: set<(AgentId, Key)>)
    requires i < |k.admitted| <= |Calls(k)|
  {
    k.admitted[i].Some? ==>
      && Calls(k)[i].kind == DATA
      && k.granted.Some? && k.granted.value < i
      && LastVerified(o, Calls(k)[..i]).Some?
      && LastVerified(o, Calls(k)[..i]).value != ""
      && (LastVerified(o, Calls(k)[..i]).value, k.admitted[i].value) in ever
  }

  // Entries the running callback still has to produce.
  function Outstanding(o: Oracles, k: Socket): seq<Entry> {
    if k.job.None? || Calls(k) == [] || k.agentId.None? then []
    else
      var n := |Calls(k)| - 1;
      match k.job.value
      case Decrypting(key) => Entries(n, k.agentId.value, key, Decrypted(o, Calls(k)[n].payload, key))
      case Handling(key, todo) => Entries(n, k.agentId.value, key, todo)
  }

  // Everything about the calls before the newest `news` (0 or 1) ones.
  ghost predicate HistoryOk(o: Oracles, k: Socket, news: nat, ever: set<(AgentId, Key)>) {
    && |k.admitted| + news == |Calls(k)|
    && var past := Calls(k)[..|k.admitted|];
    && k.agentId == LastVerified(o, past)
    && (k.authenticated <==> k.granted.Some?)
    && (k.granted.Some? ==> k.granted.value < |past| && past[k.granted.value].kind == AUTH
                            && o.verify(past[k.granted.value].payload).Some?)
    && (forall i :: 0 <= i < |k.admitted| ==> AdmissionOk(o, k, i, ever))
    && k.log + Outstanding(o, k) == Expected(o, past, k.admitted)
  }

  ghost predicate SockOk(o: Oracles, k: Socket, ever: set<(AgentId, Key)>) {
    && ParserOk(k.parser)
    && HistoryOk(o, k, 0, ever)
    && (k.job.Some? ==> P.CallPending(k.parser) && k.admitted[|k.admitted| - 1] == Some(k.job.value.key))
  }

  lemma LastVerifiedSnoc(o: Oracles, calls: seq<Frame>, f: Frame)
    ensures LastVerified(o, calls + [f]) ==
            if f.kind == AUTH && o.verify(f.payload).Some? then o.verify(f.payload) else LastVerified(o, calls)
  {
    assert (calls + [f])[..|calls|] == calls;
  }

  lemma ExpectedSnoc(o: Oracles, calls: seq<Frame>, admitted: seq<Option<Key>>, f: Frame, a: Option<Key>)
    requires |calls| == |admitted|
    ensures Expected(o, calls + [f], admitted + [a]) ==
            Expected(o, calls, admitted) +
            if a.Some? && LastVerified(o, calls).Some?
            then Entries(|calls|, LastVerified(o, calls).value, a.value, Decrypted(o, f.payload, a.value)) else []
  {
    assert (calls + [f])[..|calls|] == calls && (admitted + [a])[..|calls|] == admitted;
  }

  // The parts of a socket the history speaks about, after the callback has looked at the new frame.
  lemma HistoryGrows(o: Oracles, k: Socket, n: Socket, ever: set<(AgentId, Key)>)
    requires HistoryOk(o, k, 1, ever) && k.job.None?
    requires n.parser == k.parser && n.log == k.log
    requires |n.admitted| == |k.admitted| + 1 && n.admitted[..|k.admitted|] == k.admitted
    requires var f := Calls(k)[|k.admitted|];
             var id := if f.kind == AUTH then o.verify(f.payload) else None;
             var a := n.admitted[|k.admitted|];
             && n.agentId == (if id.Some? then id else k.agentId)
             && (n.authenticated <==> n.granted.Some?)
             && (k.granted.Some? ==> n.granted == k.granted)
             && (k.granted.None? && n.granted.Some? ==> n.granted.value == |k.admitted| && id.Some?)
             && (a.Some? ==> f.kind == DATA && k.authenticated && k.agentId.Some? && k.agentId.value != ""
                             && (k.agentId.value, a.value) in ever)
             && n.job == (if a.Some? then Some(Decrypting(a.value)) else None)
    ensures HistoryOk(o, n, 0, ever)
  {
    var m := |k.admitted|;
    var past, f, a := Calls(k)[..m], Calls(k)[m], n.admitted[m];
    assert Calls(n)[..m + 1] == past + [f] == Calls(n);
    assert n.admitted == k.admitted + [a];
    LastVerifiedSnoc(o, past, f);
    ExpectedSnoc(o, past, k.admitted, f, a);
    assert k.log + [] == k.log;
    forall i | 0 <= i < |n.admitted| ensures AdmissionOk(o, n, i, ever) {
      if i < m {
        assert AdmissionOk(o, k, i, ever);
      }
    }
  }

  lemma OnFrameKeepsSock(o: Oracles, w: World, s: nat)
    requires s < |w.socks| && ParserOk(w.socks[s].parser) && P.CallPending(w.socks[s].parser)
    requires HistoryOk(o, w.socks[s], 1, w.everCached) && w.socks[s].job.None?
    requires KeysKnown(w)
    ensures SockOk(o, OnFrame(o, w, s).socks[s], w.everCached)
  {
    hide HistoryOk, ParserOk;
    var k := w.socks[s];
    HistoryFacts(o, k, 1, w.everCached);
    if Calls(k)[|Calls(k)| - 1].kind == AUTH {
      OnAuthKeepsSock(o, w, s);
    } else {
      var n := OnFrame(o, w, s).socks[s];
      assert n.admitted[..|k.admitted|] == k.admitted;
      HistoryGrows(o, k, n, w.everCached);
    }
  }

  lemma OnAuthKeepsSock(o: Oracles, w: World, s: nat)
    requires s < |w.socks| && HistoryOk(o, w.socks[s], 1, w.everCached) && w.socks[s].job.None?
    requires Calls(w.socks[s])[|w.socks[s].admitted|].kind == AUTH
    ensures var k := w.socks[s];
            var n := OnAuth(o, w, s, Calls(k)[|k.admitted|].payload).socks[s];
            HistoryOk(o, n, 0, w.everCached) && n.job.None? && n.parser == k.parser
  {
    hide HistoryOk, KeyFor;
    var k := w.socks[s];
    HistoryFacts(o, k, 1, w.everCached);
    var n := OnAuth(o, w, s, Calls(k)[|k.admitted|].payload).socks[s];
    assert n.admitted == k.admitted + [None];
    HistoryGrows(o, k, n, w.everCached);
  }

  lemma HistoryFacts(o: Oracles, k: Socket, news: nat, ever: set<(AgentId, Key)>)
    requires HistoryOk(o, k, news, ever)
    ensures |Calls(k)| == |k.admitted| + news && (k.authenticated <==> k.granted.Some?)
  {
  }

  ghost predicate KeysKnown(w: World) {
    forall id :: id in w.keys ==> (id, w.keys[id]) in w.everCached
  }

  // What one parser segment does to the list of calls.
  lemma ParserMoves(p: P.State, e: P.Event)
    requires ParserOk(p)
    requires e.Settled? ==> P.CallPending(p)
    ensures var q := P.Step(p, e);
            && ParserOk(q)
            && (q.calls == p.calls ||
                (|q.calls| == |p.calls| + 1 && q.calls[..|p.calls|] == p.calls && P.CallPending(q)))
            && (e.Chunk? && P.CallPending(p) ==> q.calls == p.calls && P.CallPending(q))
  {
    hide EncodeAll, Take;
    P.StepKeepsInv(p, EncodeAll(p.calls) + p.buffer, e);
  }

  lemma AdvanceKeepsSock(o: Oracles, w: World, s: nat, e: P.Event)
    requires s < |w.socks| && SockOk(o, w.socks[s], w.everCached) && KeysKnown(w)
    requires e.Settled? ==> P.CallPending(w.socks[s].parser) && w.socks[s].job.None?
    ensures SockOk(o, Advance(o, w, s, P.Step(w.socks[s].parser, e)).socks[s], w.everCached)
  {
    hide ParserOk, P.Step, Expected, Entries, Decrypted, LastVerified;
    var k := w.socks[s];
    var q := P.Step(k.parser, e);
    ParserMoves(k.parser, e);
    var moved := w.(socks := w.socks[s := k.(parser := q)]);
    if |q.calls| > |Calls(k)| {
      assert Calls(k)[..|k.admitted|] == Calls(k) == q.calls[..|k.admitted|];
      MovedHistory(o, k, q, w.everCached);
      OnFrameKeepsSock(o, moved, s);
    } else {
      var n := k.(parser := q);
      forall i | 0 <= i < |n.admitted| ensures AdmissionOk(o, n, i, w.everCached) {
        assert AdmissionOk(o, k, i, w.everCached);
      }
    }
  }

  lemma MovedHistory(o: Oracles, k: Socket, q: P.State, ever: set<(AgentId, Key)>)
    requires HistoryOk(o, k, 0, ever) && k.job.None?
    requires |q.calls| == |Calls(k)| + 1 && q.calls[..|Calls(k)|] == Calls(k)
    ensures HistoryOk(o, k.(parser := q), 1, ever)
  {
    hide Expected, LastVerified;
    var n := k.(parser := q);
    assert Calls(k)[..|k.admitted|] == Calls(k);
    forall i | 0 <= i < |k.admitted| ensures AdmissionOk(o, n, i, ever) {
      assert AdmissionOk(o, k, i, ever);
      assert Calls(n)[..i] == Calls(k)[..i];
    }
  }

  lemma EverGrows(o: Oracles, k: Socket, ever: set<(AgentId, Key)>, more: set<(AgentId, Key)>)
    requires SockOk(o, k, ever) && ever <= more
    ensures SockOk(o, k, more)
  {
    hide ParserOk, Expected, Outstanding;
    forall i | 0 <= i < |k.admitted| ensures AdmissionOk(o, k, i, more) { assert AdmissionOk(o, k, i, ever); }
  }

  lemma AdmissionsStay(o: Oracles, k: Socket, n: Socket, ever: set<(AgentId, Key)>)
    requires n.parser == k.parser && n.admitted == k.admitted && n.granted == k.granted
    requires |k.admitted| == |Calls(k)| && forall i :: 0 <= i < |k.admitted| ==> AdmissionOk(o, k, i, ever)
    ensures forall i :: 0 <= i < |n.admitted| ==> AdmissionOk(o, n, i, ever)
  {
    hide LastVerified;
    forall i | 0 <= i < |n.admitted| ensures AdmissionOk(o, n, i, ever) { assert AdmissionOk(o, k, i, ever); }
  }

  // The agent of a running callback is the one its frame was admitted for.
  lemma RunningAgent(o: Oracles, k: Socket, ever: set<(AgentId, Key)>)
    requires SockOk(o, k, ever) && k.job.Some? && Calls(k) != []
    ensures k.agentId.Some?
  {
    hide ParserOk, Expected, LastVerified, Outstanding;
    var last := |Calls(k)| - 1;
    assert AdmissionOk(o, k, last, ever);
    assert Calls(k)[..|k.admitted|] == Calls(k) == Calls(k)[..last] + [Calls(k)[last]];
    LastVerifiedSnoc(o, Calls(k)[..last], Calls(k)[last]);
  }

  // Handling one record moves its entry to the log.
  lemma EntryMoves(log: seq<Entry>, call: nat, agent: AgentId, key: Key, todo: seq<Record>)
    requires todo != []
    ensures var e := Entry(call, agent, key, todo[0]);
            var now := if todo[0].kind in HANDLED_KINDS then log + [e] else log;
            now + Entries(call, agent, key, todo[1..]) == log + Entries(call, agent, key, todo)
  {
    var e, later := Entry(call, agent, key, todo[0]), Entries(call, agent, key, todo[1..]);
    assert (log + [e]) + later == log + ([e] + later);
    assert [] + later == later;
  }

  // A segment of a running callback moves entries from `Outstanding` to the log.
  lemma SegmentMovesEntries(o: Oracles, w: World, s: nat)
    requires s < |w.socks| && w.socks[s].job.Some? && w.socks[s].agentId.Some?
    requires P.CallPending(w.socks[s].parser)
    ensures |OnResume(o, w, s).socks| == |w.socks|
    ensures var k, n := w.socks[s], OnResume(o, w, s).socks[s];
            && n == k.(job := n.job, log := n.log)
            && (n.job.Some? ==> n.job.value.key == k.job.value.key)
            && n.log + Outstanding(o, n) == k.log + Outstanding(o, k)
  {
    hide P.Settle, Advance, Entries;
    var k := w.socks[s];
    var call, agent := |Calls(k)| - 1, k.agentId.value;
    NoEntries(call, agent, k.job.value.key);
    if k.job.value.Handling? && k.job.value.todo != [] {
      EntryMoves(k.log, call, agent, k.job.value.key, k.job.value.todo);
    }
  }

  lemma NoEntries(call: nat, agent: AgentId, key: Key)
    ensures Entries(call, agent, key, []) == []
  {
  }

  // A segment of a running callback keeps the socket's invariant.
  lemma ResumeKeepsSock(o: Oracles, w: World, s: nat)
    requires s < |w.socks| && SockOk(o, w.socks[s], w.everCached) && w.socks[s].job.Some?
    requires P.CallPending(w.socks[s].parser)
    ensures SockOk(o, OnResume(o, w, s).socks[s], w.everCached)
  {
    hide ParserOk, Expected, LastVerified, AdmissionOk, OnResume, Outstanding;
    var k := w.socks[s];
    RunningAgent(o, k, w.everCached);
    SegmentMovesEntries(o, w, s);
    AdmissionsStay(o, k, OnResume(o, w, s).socks[s], w.everCached);
  }

  ghost predicate WorldOk(o: Oracles, w: World) {
    && KeysKnown(w)
    && forall s :: 0 <= s < |w.socks| ==> SockOk(o, w.socks[s], w.everCached)
  }

  lemma StepKeepsWorld(o: Oracles, w: World, e: Event)
    requires WorldOk(o, w) && Enabled(w, e)
    ensures WorldOk(o, Do(o, w, e))
  {
    hide SockOk, OnFrame, P.Receive, P.Settle;
    var n := Do(o, w, e);
    match e
    case Data(s, chunk) =>
      assert P.Step(w.socks[s].parser, P.Chunk(chunk)) == P.Receive(w.socks[s].parser, chunk);
      AdvanceKeepsSock(o, w, s, P.Chunk(chunk));
      AdvanceLocal(o, w, s, P.Receive(w.socks[s].parser, chunk));
    case Resume(s) =>
      if w.socks[s].job.None? {
        AdvanceKeepsSock(o, w, s, P.Settled);
        AdvanceLocal(o, w, s, P.Settle(w.socks[s].parser));
      } else {
        ResumeKeepsSock(o, w, s);
      }
    case Connect => FreshSockOk(o, w.everCached);
    case Closed(s) => OutKeepsSock(o, w.socks[s], n.socks[s], w.everCached);
    case Alert(a, p) => if n != w { OutKeepsSock(o, w.socks[w.registry[a]], n.socks[w.registry[a]], w.everCached); }
    case Learn(_, _) =>
      forall s | 0 <= s < |w.socks| ensures SockOk(o, n.socks[s], n.everCached) {
        EverGrows(o, w.socks[s], w.everCached, n.everCached);
      }
  }

  // Parser moves and callbacks touch one socket and the registry only.
  lemma AdvanceLocal(o: Oracles, w: World, s: nat, p: P.State)
    requires s < |w.socks|
    ensures var n := Advance(o, w, s, p);
            && n.keys == w.keys && n.everCached == w.everCached && |n.socks| == |w.socks|
            && forall t :: 0 <= t < |w.socks| && t != s ==> n.socks[t] == w.socks[t]
  {
  }

  lemma FreshSockOk(o: Oracles, ever: set<(AgentId, Key)>)
    ensures SockOk(o, FRESH, ever)
  {
    assert Calls(FRESH)[..0] == [];
    assert FRESH.log + Outstanding(o, FRESH) == [];
  }

  lemma OutKeepsSock(o: Oracles, k: Socket, n: Socket, ever: set<(AgentId, Key)>)
    requires SockOk(o, k, ever)
    requires n == k.(out := n.out, closed := n.closed)
    ensures SockOk(o, n, ever)
  {
    hide ParserOk, Expected, LastVerified;
    forall i | 0 <= i < |n.admitted| ensures AdmissionOk(o, n, i, ever) { assert AdmissionOk(o, k, i, ever); }
  }

  lemma {:induction false} ReachableOk(o: Oracles, events: seq<Event>)
    ensures WorldOk(o, Run(o, events))
  {
    hide SockOk, Do;
    if events != [] {
      var w := Run(o, events[..|events| - 1]);
      ReachableOk(o, events[..|events| - 1]);
      if Enabled(w, events[|events| - 1]) { StepKeepsWorld(o, w, events[|events| - 1]); }
    }
  }

  // ---- Session safety ----

  lemma {:induction false} EntriesOrigin(call: nat, agent: AgentId, key: Key, records: seq<Record>, e: Entry)
    requires e in Entries(call, agent, key, records)
    ensures e == Entry(call, agent, key, e.record) && e.record in records && e.record.kind in HANDLED_KINDS
  {
    if e in Entries(call, agent, key, records[1..]) {
      EntriesOrigin(call, agent, key, records[1..], e);
    }
  }

  lemma {:induction false} ExpectedOrigin(o: Oracles, calls: seq<Frame>, admitted: seq<Option<Key>>, e: Entry)
    requires |calls| == |admitted| && e in Expected(o, calls, admitted)
    ensures e.call < |calls| && admitted[e.call] == Some(e.key)
    ensures LastVerified(o, calls[..e.call]) == Some(e.agent)
    ensures e.record in Decrypted(o, calls[e.call].payload, e.key) && e.record.kind in HANDLED_KINDS
  {
    var n := |calls| - 1;
    if e in Expected(o, calls[..n], admitted[..n]) {
      ExpectedOrigin(o, calls[..n], admitted[..n], e);
      assert calls[..n][..e.call] == calls[..e.call];
    } else {
      EntriesOrigin(n, LastVerified(o, calls[..n]).value, admitted[n].value,
                    Decrypted(o, calls[n].payload, admitted[n].value), e);
    }
  }

  /** On every socket of every run, the records given to rule handlers are, in order and each once,
      the handled records of the admitted Data frames, all records of one frame under one id, the
      one verified last before that frame; a running callback is only behind by what it still owes. */
  lemma RecordsHandledInOrder(o: Oracles, events: seq<Event>, s: nat)
    requires s < |Run(o, events).socks|
    ensures var k := Run(o, events).socks[s];
            && |k.admitted| == |Calls(k)|
            && k.log <= Expected(o, Calls(k), k.admitted)
            && (k.job.None? ==> k.log == Expected(o, Calls(k), k.admitted))
  {
    hide Expected;
    var w := Run(o, events);
    var k := w.socks[s];
    ReachableOk(o, events);
    assert SockOk(o, k, w.everCached);
    assert Calls(k)[..|k.admitted|] == Calls(k);
    assert k.log + [] == k.log;
  }

  // One step of the server, seen from the admissions of one socket.
  lemma AdmissionStep(o: Oracles, w: World, e: Event, s: nat)
    requires WorldOk(o, w) && Enabled(w, e) && s < |w.socks|
    ensures var n := Do(o, w, e);
            && s < |n.socks| && Calls(w.socks[s]) <= Calls(n.socks[s])
            && var k, m := w.socks[s].admitted, n.socks[s].admitted;
               m == k ||
               (|m| == |k| + 1 && m[..|k|] == k && (m[|k|].Some? ==> m[|k|] == Admission(w, w.socks[s])))
  {
    hide SockOk, P.Receive, P.Settle, Advance, Admission;
    match e
    case Data(t, chunk) =>
      assert P.Step(w.socks[t].parser, P.Chunk(chunk)) == P.Receive(w.socks[t].parser, chunk);
      AdvanceLocal(o, w, t, P.Receive(w.socks[t].parser, chunk));
      AdvanceAdmission(o, w, t, P.Chunk(chunk));
    case Resume(t) =>
      if w.socks[t].job.None? {
        AdvanceLocal(o, w, t, P.Settle(w.socks[t].parser));
        AdvanceAdmission(o, w, t, P.Settled);
      }
    case _ =>
  }

  lemma AdvanceAdmission(o: Oracles, w: World, s: nat, e: P.Event)
    requires s < |w.socks| && SockOk(o, w.socks[s], w.everCached)
    requires e.Settled? ==> P.CallPending(w.socks[s].parser)
    ensures var n := Advance(o, w, s, P.Step(w.socks[s].parser, e));
            && s < |n.socks| && Calls(w.socks[s]) <= Calls(n.socks[s])
            && var k, m := w.socks[s].admitted, n.socks[s].admitted;
               m == k ||
               (|m| == |k| + 1 && m[..|k|] == k && (m[|k|].Some? ==> m[|k|] == Admission(w, w.socks[s])))
  {
    hide ParserOk, HistoryOk, P.Step;
    ParserMoves(w.socks[s].parser, e);
  }

  // Event n is the one at which call i of socket s was looked at; the socket was authenticated, agent
  // was its agent, and key was the agent's key in the cache.
  ghost predicate AdmittedAt(o: Oracles, events: seq<Event>, n: nat, s: nat, i: nat, agent: AgentId, key: Key) {
    && n < |events|
    && var before, after := Run(o, events[..n]), Run(o, events[..n + 1]);
    && s < |before.socks| && s < |after.socks|
    && |before.socks[s].admitted| == i && |after.socks[s].admitted| == i + 1
    && before.socks[s].authenticated && before.socks[s].agentId == Some(agent)
    && KeyFor(before, agent) == Some(key)
  }

  lemma {:induction false} AdmittedWithCachedKey(o: Oracles, events: seq<Event>, s: nat, i: nat)
    returns (n: nat, agent: AgentId)
    requires s < |Run(o, events).socks|
    requires i < |Run(o, events).socks[s].admitted| && Run(o, events).socks[s].admitted[i].Some?
    ensures AdmittedAt(o, events, n, s, i, agent, Run(o, events).socks[s].admitted[i].value)
    ensures i < |Calls(Run(o, events).socks[s])| && LastVerified(o, Calls(Run(o, events).socks[s])[..i]) == Some(agent)
  {
    hide Do, SockOk, KeyFor, LastVerified;
    var init, e := events[..|events| - 1], events[|events| - 1];
    var w, m := Run(o, init), Run(o, events);
    ReachableOk(o, init);
    ReachableOk(o, events);
    assert SockOk(o, m.socks[s], m.everCached);
    AdmissionsMatchCalls(o, m.socks[s], m.everCached);
    if s < |w.socks| {
      if Enabled(w, e) { AdmissionStep(o, w, e, s); }
      assert SockOk(o, w.socks[s], w.everCached);
      AdmissionsMatchCalls(o, w.socks[s], w.everCached);
      if i < |w.socks[s].admitted| {
        n, agent := AdmittedWithCachedKey(o, init, s, i);
        assert init[..n] == events[..n] && init[..n + 1] == events[..n + 1];
        assert Calls(w.socks[s])[..i] == Calls(m.socks[s])[..i];
      } else {
        n, agent := |events| - 1, w.socks[s].agentId.value;
        assert events[..n + 1] == events;
        assert Calls(w.socks[s])[..i] == Calls(w.socks[s]) == Calls(m.socks[s])[..i];
      }
    } else {
      NewSocketIsFresh(o, w, e, s);
    }
  }

  lemma AdmissionsMatchCalls(o: Oracles, k: Socket, ever: set<(AgentId, Key)>)
    requires SockOk(o, k, ever)
    ensures |k.admitted| == |Calls(k)| && k.agentId == LastVerified(o, Calls(k))
  {
    hide ParserOk, Expected, Outstanding, AdmissionOk, LastVerified;
    assert Calls(k)[..|k.admitted|] == Calls(k);
  }

  lemma NewSocketIsFresh(o: Oracles, w: World, e: Event, s: nat)
    requires |w.socks| <= s && (if Enabled(w, e) then s < |Do(o, w, e).socks| else false)
    ensures Do(o, w, e).socks[s] == FRESH
  {
    hide P.Receive, P.Settle;
  }

  /** Session safety: a record reaches a rule handler only from a Data frame that came after a
      successful Auth on the same socket, under the id of the last token verified before that
      frame, decrypted with the key the cache held for that id when the frame was admitted. */
  lemma SessionSafety(o: Oracles, events: seq<Event>, s: nat, e: Entry)
    requires s < |Run(o, events).socks| && e in Run(o, events).socks[s].log
    ensures var w := Run(o, events); var k := w.socks[s];
            && e.call < |Calls(k)| && Calls(k)[e.call].kind == DATA
            && LastVerified(o, Calls(k)[..e.call]) == Some(e.agent) && e.agent != ""
            && (e.agent, e.key) in w.everCached
            && e.record in Decrypted(o, Calls(k)[e.call].payload, e.key)
            && k.granted.Some? && k.granted.value < e.call
            && Calls(k)[k.granted.value].kind == AUTH && o.verify(Calls(k)[k.granted.value].payload).Some?
    ensures exists n: nat :: AdmittedAt(o, events, n, s, e.call, e.agent, e.key)
  {
    hide Run, Expected, LastVerified, Decrypted, AdmittedAt;
    var w := Run(o, events);
    var k := w.socks[s];
    RecordsHandledInOrder(o, events, s);
    ExpectedOrigin(o, Calls(k), k.admitted, e);
    ReachableOk(o, events);
    assert SockOk(o, k, w.everCached);
    assert AdmissionOk(o, k, e.call, w.everCached);
    assert Calls(k)[..|k.admitted|] == Calls(k);
    var n, agent := AdmittedWithCachedKey(o, events, s, e.call);
  }
}
