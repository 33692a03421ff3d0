/** The data path as a whole: batches packed by the agent's senders, written to the shared
    connection, cut into chunks by the network, parsed, admitted, decrypted and handled. */
module EndToEnd {
  import opened Shared
  import opened Frames
  import P = FrameParser
  import AgentLink
  import R = AgentRuns
  import KeySync
  import B = BatchCodec
  import opened WorkerSessions
  import opened SocketRegistry
  import W = WorkerWire

  // ---- What has arrived at a socket ----

  // The chunks of a run that reached socket s, concatenated.
  function BytesIn(o: Oracles, events: seq<Event>, s: nat): seq<byte> {
    if events == [] then []
    else
      var init, e := events[..|events| - 1], events[|events| - 1];
      BytesIn(o, init, s) + if e.Data? && e.s == s && Enabled(Run(o, init), e) then e.chunk else []
  }

  lemma StepKeepsBytes(o: Oracles, w: World, e: Event, t: nat, bytes: seq<byte>)
    requires WorldOk(o, w) && Enabled(w, e) && t < |w.socks|
    requires P.Inv(w.socks[t].parser, bytes)
    ensures t < |Do(o, w, e).socks|
    ensures P.Inv(Do(o, w, e).socks[t].parser, bytes + if e.Data? && e.s == t then e.chunk else [])
  {
    hide SockOk, P.Inv, OnFrame, P.Receive, P.Settle;
    assert bytes + [] == bytes;
    match e
    case Data(s, chunk) =>
      AdvanceLocal(o, w, s, P.Receive(w.socks[s].parser, chunk));
      if s == t {
        P.StepKeepsInv(w.socks[s].parser, bytes, P.Chunk(chunk));
        assert P.Step(w.socks[s].parser, P.Chunk(chunk)) == P.Receive(w.socks[s].parser, chunk);
        AdvanceParser(o, w, s, P.Receive(w.socks[s].parser, chunk));
      }
    case Resume(s) =>
      if w.socks[s].job.None? {
        AdvanceLocal(o, w, s, P.Settle(w.socks[s].parser));
        var k := w.socks[s];
        if s != t {
          assert SockOk(o, k, w.everCached);
          SockParser(o, k, w.everCached);
        }
        P.StepKeepsInv(k.parser, if s == t then bytes else EncodeAll(Calls(k)) + k.parser.buffer, P.Settled);
        AdvanceParser(o, w, s, P.Settle(w.socks[s].parser));
      }
    case _ =>
  }

  lemma SockParser(o: Oracles, k: Socket, ever: set<(AgentId, Key)>)
    requires SockOk(o, k, ever)
    ensures P.Inv(k.parser, EncodeAll(Calls(k)) + k.parser.buffer)
  {
  }

  lemma AdvanceParser(o: Oracles, w: World, s: nat, p: P.State)
    requires s < |w.socks|
    ensures s < |Advance(o, w, s, p).socks| && Advance(o, w, s, p).socks[s].parser == p
  {
    if |p.calls| > |Calls(w.socks[s])| {
      OnFrameKeepsParser(o, w.(socks := w.socks[s := w.socks[s].(parser := p)]), s);
    }
  }

  /** A socket's parser holds exactly the bytes that arrived at it: its calls, re-encoded, and the
      rest of its buffer. */
  lemma {:induction false} SocketsHoldWhatArrived(o: Oracles, events: seq<Event>, t: nat)
    ensures t < |Run(o, events).socks| ==> P.Inv(Run(o, events).socks[t].parser, BytesIn(o, events, t))
    ensures t >= |Run(o, events).socks| ==> BytesIn(o, events, t) == []
  {
    hide Do, WorldOk, P.Inv, Enabled;
    if events != [] {
      var init, e := events[..|events| - 1], events[|events| - 1];
      var w := Run(o, init);
      SocketsHoldWhatArrived(o, init, t);
      ReachableOk(o, init);
      var more := if e.Data? && e.s == t && Enabled(w, e) then e.chunk else [];
      assert BytesIn(o, events, t) == BytesIn(o, init, t) + more;
      hide BytesIn;
      if Enabled(w, e) {
        CallsOnlyGrow(o, w, e);
        if t < |w.socks| {
          StepKeepsBytes(o, w, e, t, BytesIn(o, init, t));
        } else {
          NewSocketIsEmpty(o, w, e, t);
        }
      } else {
        assert BytesIn(o, init, t) + [] == BytesIn(o, init, t);
      }
    }
  }

  lemma NewSocketIsEmpty(o: Oracles, w: World, e: Event, t: nat)
    requires Enabled(w, e) && t >= |w.socks|
    ensures e.Data? ==> e.s != t
    ensures t < |Do(o, w, e).socks| ==> P.Inv(Do(o, w, e).socks[t].parser, [])
  {
    hide P.Receive, P.Settle;
  }

  /** Whatever the chunks and the pace of the callbacks: if the bytes that arrived at a socket are a
      prefix of what an agent's connection wrote before its first failed write, the socket's callback
      sees a prefix of [Auth] + the frames in writeMutex order, and Auth only as its first frame. */
  lemma SocketSeesWriteOrder(
    actions: seq<AgentLink.Action>, c: nat, o: Oracles, events: seq<Event>, s: nat)
    requires c < |AgentLink.Run(actions).conns| && s < |Run(o, events).socks|
    requires var conn := AgentLink.Run(actions).conns[c];
             AllFit([Frame(AUTH, conn.token)] + conn.order) && BytesIn(o, events, s) <= conn.intact
    ensures var conn := AgentLink.Run(actions).conns[c];
            Calls(Run(o, events).socks[s]) <= [Frame(AUTH, conn.token)] + conn.order
    ensures AuthOnlyFirst(Calls(Run(o, events).socks[s]))
  {
    hide Encode, Take, AgentLink.ReadAuthResponse, AgentLink.Run, Run;
    var conn := AgentLink.Run(actions).conns[c];
    var k := Run(o, events).socks[s];
    SocketsHoldWhatArrived(o, events, s);
    AgentLink.WritesAreWholeFrames(actions, c);
    var all := [Frame(AUTH, conn.token)] + conn.order;
    DecodePrefix(BytesIn(o, events, s), all);
    DecodeEncoded(Calls(k), k.parser.buffer);
    assert Calls(k) <= Decode(BytesIn(o, events, s)).frames;
    forall i | 0 < i < |Calls(k)| ensures Calls(k)[i].kind != AUTH {
      assert Calls(k)[i] == all[i] == conn.order[i - 1];
    }
  }

  // ---- From batches to handled records ----

  function RecordsOf(log: seq<Entry>): seq<Record> {
    if log == [] then [] else RecordsOf(log[..|log| - 1]) + [log[|log| - 1].record]
  }

  // The types of records some handler takes.
  predicate IsHandled(kind: string) {
    kind == "file_integrity" || kind == "log_monitoring" || kind == "net_pro" || kind == "software_list"
  }

  function Handled(rs: seq<Record>): seq<Record> {
    if rs == [] then []
    else (if IsHandled(rs[0].kind) then [rs[0]] else []) + Handled(rs[1..])
  }

  // Each Data frame among the first n of `frames` carries the batch of its index, packed for key.
  ghost predicate CarriesBatches(codecs: B.Codecs, key: Key, frames: seq<Frame>,
                                 batches: seq<seq<string>>, nonces: seq<seq<byte>>)
  {
    && |frames| <= |batches| && |batches| == |nonces|
    && forall i :: 0 <= i < |frames| && frames[i].kind == DATA ==>
         && |nonces[i]| == B.NONCE_SIZE
         && B.AllSendable(codecs, batches[i])
         && B.Pack(codecs, key, nonces[i], batches[i]) == Some(frames[i].payload)
  }

  // What the batches carried by the Data frames mean, in order.
  ghost function Delivered(codecs: B.Codecs, frames: seq<Frame>, batches: seq<seq<string>>): seq<Record>
    requires B.Laws(codecs) && |frames| <= |batches|
    requires forall i :: 0 <= i < |frames| && frames[i].kind == DATA ==> B.AllSendable(codecs, batches[i])
  {
    if frames == [] then []
    else
      var n := |frames| - 1;
      Delivered(codecs, frames[..n], batches) +
      if frames[n].kind == DATA then
        B.SendableParse(codecs, batches[n]);
        Handled(B.Meaning(codecs, batches[n]))
      else []
  }

  lemma RecordsOfSnoc(log: seq<Entry>, e: Entry)
    ensures RecordsOf(log + [e]) == RecordsOf(log) + [e.record]
  {
    assert (log + [e])[..|log|] == log;
  }

  lemma HandlersTakeThese(kind: string)
    ensures IsHandled(kind) <==> kind in HANDLED_KINDS
  {
  }

  lemma {:induction false} RecordsOfEntries(log: seq<Entry>, call: nat, agent: AgentId, key: Key, rs: seq<Record>)
    ensures RecordsOf(log + Entries(call, agent, key, rs)) == RecordsOf(log) + Handled(rs)
    decreases |rs|
  {
    hide RecordsOf, IsHandled, HANDLED_KINDS;
    if rs != [] { HandlersTakeThese(rs[0].kind); }
    if rs == [] {
      assert log + [] == log && RecordsOf(log) + [] == RecordsOf(log);
    } else if IsHandled(rs[0].kind) {
      var e := Entry(call, agent, key, rs[0]);
      RecordsOfEntries(log + [e], call, agent, key, rs[1..]);
      RecordsOfSnoc(log, e);
      ConcatAssoc(log, [e], Entries(call, agent, key, rs[1..]));
      ConcatAssoc(RecordsOf(log), [rs[0]], Handled(rs[1..]));
    } else {
      RecordsOfEntries(log, call, agent, key, rs[1..]);
      assert Entries(call, agent, key, rs) == Entries(call, agent, key, rs[1..]);
    }
  }

  // The reference log of WorkerSessions, for calls that start with the one Auth frame.
  lemma {:induction false} ExpectedIsDelivered(
    o: Oracles, codecs: B.Codecs, key: Key, token: seq<byte>, agent: AgentId,
    frames: seq<Frame>, batches: seq<seq<string>>, nonces: seq<seq<byte>>, admitted: seq<Option<Key>>)
    requires B.Laws(codecs) && |key| == B.AES_256_KEY_SIZE
    requires forall p, k :: o.decrypt(p, k) == B.Unpack(codecs, p, k)
    requires o.verify(token) == Some(agent)
    requires forall i :: 0 <= i < |frames| ==> frames[i].kind != AUTH
    requires CarriesBatches(codecs, key, frames, batches, nonces)
    requires |admitted| == |frames| + 1 && admitted[0].None?
    requires forall i :: 0 <= i < |frames| ==>
               admitted[i + 1] == if frames[i].kind == DATA then Some(key) else None
    ensures var calls := [Frame(AUTH, token)] + frames;
            && LastVerified(o, calls) == Some(agent)
            && RecordsOf(Expected(o, calls, admitted)) == Delivered(codecs, frames, batches)
            && (forall e :: e in Expected(o, calls, admitted) ==> e.agent == agent)
    decreases |frames|
  {
    hide B.Unpack, B.Pack, B.Laws, B.AllSendable, RecordsOf, Expected, LastVerified, Entries, Decrypted;
    var calls := [Frame(AUTH, token)] + frames;
    if frames == [] {
      AuthAlone(o, token);
      assert calls == [Frame(AUTH, token)] && admitted == [None];
    } else {
      var n := |frames| - 1;
      var init := [Frame(AUTH, token)] + frames[..n];
      ExpectedIsDelivered(o, codecs, key, token, agent, frames[..n], batches, nonces, admitted[..n + 1]);
      assert calls[..n + 1] == init && calls == init + [frames[n]];
      assert admitted == admitted[..n + 1] + [admitted[n + 1]];
      LastVerifiedSnoc(o, init, frames[n]);
      ExpectedSnoc(o, init, admitted[..n + 1], frames[n], admitted[n + 1]);
      var before := Expected(o, init, admitted[..n + 1]);
      if frames[n].kind == DATA {
        BatchIsDelivered(o, codecs, key, agent, before, n + 1, frames[n].payload, batches[n], nonces[n]);
      } else {
        assert before + [] == before;
      }
    }
  }

  // One more Data frame: its batch is unpacked and handled under the agent's id.
  lemma BatchIsDelivered(
    o: Oracles, codecs: B.Codecs, key: Key, agent: AgentId, before: seq<Entry>, call: nat,
    payload: seq<byte>, batch: seq<string>, nonce: seq<byte>)
    requires B.Laws(codecs) && |key| == B.AES_256_KEY_SIZE && |nonce| == B.NONCE_SIZE
    requires forall p, k :: o.decrypt(p, k) == B.Unpack(codecs, p, k)
    requires B.AllSendable(codecs, batch) && B.Pack(codecs, key, nonce, batch) == Some(payload)
    ensures forall i :: 0 <= i < |batch| ==> codecs.parse(batch[i]).Some?
    ensures var after := before + Entries(call, agent, key, Decrypted(o, payload, key));
            && RecordsOf(after) == RecordsOf(before) + Handled(B.Meaning(codecs, batch))
            && (forall e :: e in after ==> e in before || e.agent == agent)
  {
    hide B.Unpack, B.Pack, B.Laws, B.AllSendable, RecordsOf, Entries, Handled;
    B.BatchRoundTrip(codecs, key, nonce, batch);
    B.SendableParse(codecs, batch);
    var records := B.Meaning(codecs, batch);
    assert Decrypted(o, payload, key) == records;
    RecordsOfEntries(before, call, agent, key, records);
    forall e | e in Entries(call, agent, key, records) ensures e.agent == agent {
      EntriesOrigin(call, agent, key, records, e);
    }
  }

  lemma AuthAlone(o: Oracles, token: seq<byte>)
    requires o.verify(token).Some?
    ensures LastVerified(o, [Frame(AUTH, token)]) == o.verify(token)
    ensures Expected(o, [Frame(AUTH, token)], [None]) == [] && RecordsOf([]) == []
  {
    var nothing: seq<Option<Key>> := [None];
    assert [Frame(AUTH, token)][..0] == [] && nothing[..0] == [];
  }

  // ---- A granted socket has all its Data frames admitted ----

  // The frames start with the one Auth frame, whose token names the agent.
  predicate Names(o: Oracles, calls: seq<Frame>, agent: AgentId) {
    AuthOnlyFirst(calls) && (calls != [] ==> calls[0].kind == AUTH && o.verify(calls[0].payload) == Some(agent))
  }

  // The cache has never held another key for the agent.
  ghost predicate OnlyKey(w: World, agent: AgentId, key: Key) {
    forall k :: (agent, k) in w.everCached ==> k == key
  }

  ghost predicate Admits(w: World, s: nat, agent: AgentId, key: Key) {
    s < |w.socks| && w.socks[s].granted.Some? ==>
      && agent in w.keys && w.keys[agent] == key
      && var k := w.socks[s];
         |k.admitted| <= |Calls(k)| &&
         forall i :: 0 <= i < |k.admitted| && Calls(k)[i].kind == DATA ==> k.admitted[i] == Some(key)
  }

  lemma {:induction false} NamedIsLastVerified(o: Oracles, calls: seq<Frame>, agent: AgentId)
    requires Names(o, calls, agent) && calls != []
    ensures LastVerified(o, calls) == Some(agent)
  {
    if |calls| > 1 {
      NamedIsLastVerified(o, calls[..|calls| - 1], agent);
    }
  }

  // The callback's start with one more frame.
  lemma OnFrameAdmits(o: Oracles, w: World, s: nat, agent: AgentId, key: Key)
    requires s < |w.socks| && HistoryOk(o, w.socks[s], 1, w.everCached) && KeysKnown(w)
    requires Names(o, Calls(w.socks[s]), agent) && OnlyKey(w, agent, key) && agent != "" && key != ""
    requires Admits(w, s, agent, key)
    ensures Admits(OnFrame(o, w, s), s, agent, key)
  {
    hide Outstanding, Expected, AdmissionOk;
    var k := w.socks[s];
    var n := OnFrame(o, w, s);
    var f := Calls(k)[|k.admitted|];
    OnFrameKeepsParser(o, w, s);
    if f.kind != AUTH && k.granted.Some? {
      NamedIsLastVerified(o, Calls(k)[..|k.admitted|], agent);
    }
  }

  lemma AdvanceAdmits(o: Oracles, w: World, s: nat, e: P.Event, agent: AgentId, key: Key)
    requires s < |w.socks| && SockOk(o, w.socks[s], w.everCached) && KeysKnown(w)
    requires e.Settled? ==> P.CallPending(w.socks[s].parser) && w.socks[s].job.None?
    requires Names(o, Calls(Advance(o, w, s, P.Step(w.socks[s].parser, e)).socks[s]), agent)
    requires OnlyKey(w, agent, key) && agent != "" && key != "" && Admits(w, s, agent, key)
    ensures Admits(Advance(o, w, s, P.Step(w.socks[s].parser, e)), s, agent, key)
  {
    hide ParserOk, P.Step, HistoryOk, OnFrame, Names, OnlyKey;
    var k := w.socks[s];
    var q := P.Step(k.parser, e);
    ParserMoves(k.parser, e);
    HistoryFacts(o, k, 0, w.everCached);
    var moved := w.(socks := w.socks[s := k.(parser := q)]);
    if |q.calls| > |Calls(k)| {
      MovedHistory(o, k, q, w.everCached);
      OnFrameKeepsParser(o, moved, s);
      SameCache(w, moved, agent, key);
      OnFrameAdmits(o, moved, s, agent, key);
    }
  }

  lemma SameCache(w: World, n: World, agent: AgentId, key: Key)
    requires n.everCached == w.everCached && OnlyKey(w, agent, key)
    ensures OnlyKey(n, agent, key)
  {
  }

  lemma StepAdmits(o: Oracles, w: World, e: Event, s: nat, agent: AgentId, key: Key)
    requires WorldOk(o, w) && Enabled(w, e) && s < |Do(o, w, e).socks|
    requires Names(o, Calls(Do(o, w, e).socks[s]), agent) && OnlyKey(Do(o, w, e), agent, key)
    requires agent != "" && key != "" && Admits(w, s, agent, key)
    ensures Admits(Do(o, w, e), s, agent, key)
  {
    hide SockOk, Names, P.Receive, P.Settle, OnFrame, Advance, Admits, OnAlert, OnClose;
    match e
    case Data(t, chunk) =>
      var p := P.Receive(w.socks[t].parser, chunk);
      assert P.Step(w.socks[t].parser, P.Chunk(chunk)) == p;
      AdvanceLocal(o, w, t, p);
      if t == s {
        AdvanceAdmits(o, w, s, P.Chunk(chunk), agent, key);
      } else {
        AdmitsLocally(w, Do(o, w, e), s, agent, key);
      }
    case Resume(t) =>
      if w.socks[t].job.None? { AdvanceLocal(o, w, t, P.Settle(w.socks[t].parser)); }
      if t == s && w.socks[t].job.None? {
        AdvanceAdmits(o, w, s, P.Settled, agent, key);
      } else {
        ResumeLocal(o, w, t, s);
        AdmitsLocally(w, Do(o, w, e), s, agent, key);
      }
    case _ => PlainStepAdmits(o, w, e, s, agent, key);
  }

  lemma ResumeLocal(o: Oracles, w: World, t: nat, s: nat)
    requires t < |w.socks| && P.CallPending(w.socks[t].parser) && s < |w.socks|
    requires t == s ==> w.socks[t].job.Some?
    ensures var n := OnResume(o, w, t);
            && n.keys == w.keys && |n.socks| == |w.socks| && SameAdmission(w.socks[s], n.socks[s])
  {
    hide P.Settle, OnFrame, Advance;
    if w.socks[t].job.None? { AdvanceLocal(o, w, t, P.Settle(w.socks[t].parser)); }
  }

  predicate SameAdmission(k: Socket, n: Socket) {
    n.granted == k.granted && n.admitted == k.admitted && Calls(n) == Calls(k)
  }

  lemma AdmitsLocally(w: World, n: World, s: nat, agent: AgentId, key: Key)
    requires s < |w.socks| && |n.socks| == |w.socks| && n.keys == w.keys && SameAdmission(w.socks[s], n.socks[s])
    requires Admits(w, s, agent, key)
    ensures Admits(n, s, agent, key)
  {
  }

  lemma PlainStepAdmits(o: Oracles, w: World, e: Event, s: nat, agent: AgentId, key: Key)
    requires Enabled(w, e) && !e.Data? && !e.Resume?
    requires OnlyKey(Do(o, w, e), agent, key) && Admits(w, s, agent, key)
    ensures Admits(Do(o, w, e), s, agent, key)
  {
    hide Fits;
    if e.Learn? && e.id == agent { assert (agent, e.key) in Do(o, w, e).everCached; }
  }

  lemma CacheOnlyGrows(o: Oracles, w: World, e: Event)
    requires Enabled(w, e)
    ensures w.everCached <= Do(o, w, e).everCached
  {
    hide P.Receive, P.Settle;
  }

  /** If the cache has never held another key for the agent, a socket whose one Auth frame named the
      agent and was granted has every Data frame admitted with that key. */
  lemma {:induction false} GrantedAdmitsAll(o: Oracles, events: seq<Event>, s: nat, agent: AgentId, key: Key)
    requires s < |Run(o, events).socks| && Names(o, Calls(Run(o, events).socks[s]), agent)
    requires OnlyKey(Run(o, events), agent, key) && agent != "" && key != ""
    ensures Admits(Run(o, events), s, agent, key)
  {
    hide Do, WorldOk, AuthOnlyFirst, Enabled;
    if events != [] {
      var init, e := events[..|events| - 1], events[|events| - 1];
      var w, n := Run(o, init), Run(o, events);
      ReachableOk(o, init);
      if Enabled(w, e) {
        CallsOnlyGrow(o, w, e);
        CacheOnlyGrows(o, w, e);
        if s < |w.socks| {
          PrefixAuthOnlyFirst(Calls(w.socks[s]), Calls(n.socks[s]));
          GrantedAdmitsAll(o, init, s, agent, key);
        }
        StepAdmits(o, w, e, s, agent, key);
      } else {
        GrantedAdmitsAll(o, init, s, agent, key);
      }
    }
  }

  // ---- From the agent's goroutines to the handlers ----

  // Every sender was started with its own batch, packed for the key with its own nonce.
  ghost predicate PacksBatches(codecs: B.Codecs, key: Key, jobs: seq<AgentLink.Job>,
                               batches: seq<seq<string>>, nonces: seq<seq<byte>>)
  {
    && |batches| == |nonces| == |jobs|
    && forall t :: 0 <= t < |jobs| && jobs[t].Batch? ==>
         && |nonces[t]| == 12
         && B.AllSendable(codecs, batches[t])
         && B.Pack(codecs, key, nonces[t], batches[t]) == Some(jobs[t].data)
  }

  function Meant(codecs: B.Codecs, batch: seq<string>): seq<Record> {
    if forall i :: 0 <= i < |batch| ==> codecs.parse(batch[i]).Some? then Handled(B.Meaning(codecs, batch)) else []
  }

  // The messages of the senders that took writeMutex, in that order; a heartbeat has none.
  function SentBy(
    codecs: B.Codecs, jobs: seq<AgentLink.Job>, lockers: seq<nat>, batches: seq<seq<string>>): seq<Record>
  {
    if lockers == [] then []
    else
      var t := lockers[|lockers| - 1];
      SentBy(codecs, jobs, lockers[..|lockers| - 1], batches) +
      if t < |jobs| && t < |batches| && jobs[t].Batch? then Meant(codecs, batches[t]) else []
  }

  function PerFrame<T>(xs: seq<T>, none: T, lockers: seq<nat>): seq<T> {
    seq(|lockers|, i requires 0 <= i < |lockers| => if lockers[i] < |xs| then xs[lockers[i]] else none)
  }

  ghost predicate FramesOfJobs(frames: seq<Frame>, lockers: seq<nat>, jobs: seq<AgentLink.Job>) {
    && |lockers| == |frames|
    && forall i :: 0 <= i < |frames| ==> lockers[i] < |jobs| && R.Carries(frames[i], jobs[lockers[i]])
  }

  lemma FramesCarryBatches(codecs: B.Codecs, key: Key, frames: seq<Frame>, lockers: seq<nat>,
                           jobs: seq<AgentLink.Job>, batches: seq<seq<string>>, nonces: seq<seq<byte>>)
    requires FramesOfJobs(frames, lockers, jobs) && PacksBatches(codecs, key, jobs, batches, nonces)
    ensures CarriesBatches(codecs, key, frames, PerFrame(batches, [], lockers), PerFrame(nonces, [], lockers))
  {
    hide B.AllSendable, B.Pack;
  }

  lemma {:induction false} SentIsDelivered(codecs: B.Codecs, key: Key, frames: seq<Frame>, lockers: seq<nat>,
                                           jobs: seq<AgentLink.Job>, batches: seq<seq<string>>,
                                           nonces: seq<seq<byte>>, all: seq<seq<string>>)
    requires B.Laws(codecs)
    requires FramesOfJobs(frames, lockers, jobs) && PacksBatches(codecs, key, jobs, batches, nonces)
    requires |lockers| <= |all| && forall i :: 0 <= i < |lockers| ==> all[i] == PerFrame(batches, [], lockers)[i]
    requires forall i :: 0 <= i < |frames| && frames[i].kind == DATA ==> B.AllSendable(codecs, all[i])
    ensures Delivered(codecs, frames, all) == SentBy(codecs, jobs, lockers, batches)
    decreases |frames|
  {
    hide B.AllSendable, B.Pack, B.Laws, Handled;
    if frames != [] {
      var n := |frames| - 1;
      assert forall i :: 0 <= i < n ==> PerFrame(batches, [], lockers[..n])[i] == PerFrame(batches, [], lockers)[i];
      SentIsDelivered(codecs, key, frames[..n], lockers[..n], jobs, batches, nonces, all);
      if frames[n].kind == DATA { B.SendableParse(codecs, all[n]); }
    }
  }

  /** The data path, end to end. An agent's senders were started with packed batches and share one
      connection in any interleaving; some prefix of what it wrote has arrived at a worker's socket, in
      any chunks; the connection's token names the agent, and the worker's cache has never held another
      key for it. If the worker refused the token, no record is handled. If it granted it, the records
      given to the rule handlers are, in order and each once, the messages of the senders whose frames
      were called back, all under the id the token names; a callback that is still running is only
      behind. An idle parser has called back every frame that arrived; so once all of the connection's
      bytes are in and the parser is idle, every message was handled. */
  lemma MessagesReachHandlers(
    actions: seq<AgentLink.Action>, c: nat, o: Oracles, events: seq<Event>, s: nat,
    codecs: B.Codecs, key: Key, agent: AgentId, batches: seq<seq<string>>, nonces: seq<seq<byte>>)
    requires c < |AgentLink.Run(actions).conns| && s < |Run(o, events).socks|
    requires B.Laws(codecs) && |key| == 32 && agent != ""
    requires forall p, k :: o.decrypt(p, k) == B.Unpack(codecs, p, k)
    requires OnlyKey(Run(o, events), agent, key)
    requires PacksBatches(codecs, key, R.JobsOf(actions), batches, nonces)
    requires var conn := AgentLink.Run(actions).conns[c];
             && AllFit([Frame(AUTH, conn.token)] + conn.order)
             && BytesIn(o, events, s) <= conn.intact
             && o.verify(conn.token) == Some(agent)
    ensures var k := Run(o, events).socks[s];
            var conn, jobs := AgentLink.Run(actions).conns[c], R.JobsOf(actions);
            if k.granted.None? then k.log == []
            else
              && 0 < |Calls(k)| <= |conn.order| + 1 && |conn.lockers| == |conn.order|
              && var sent := SentBy(codecs, jobs, conn.lockers[..|Calls(k)| - 1], batches);
                 && RecordsOf(k.log) <= sent
                 && (k.job.None? ==> RecordsOf(k.log) == sent)
                 && (forall e :: e in k.log ==> e.agent == agent)
                 && (!k.parser.isProcessing ==> k.job.None? && Calls(k) == Decode(BytesIn(o, events, s)).frames)
                 && (var all := [Frame(AUTH, conn.token)] + conn.order;
                     !k.parser.isProcessing && BytesIn(o, events, s) == EncodeAll(all) ==>
                       RecordsOf(k.log) == SentBy(codecs, jobs, conn.lockers, batches))
  {
    hide AgentLink.Run, Run, Encode, B.Unpack, B.Pack, B.Laws, B.AllSendable, R.JobsOf, PacksBatches;
    hide RecordsOf, SentBy, OnlyKey, LastVerified, Decrypted, Decode;
    var conn := AgentLink.Run(actions).conns[c];
    var k := Run(o, events).socks[s];
    if k.granted.None? {
      if k.log != [] { SessionSafety(o, events, s, k.log[0]); }
    } else {
      SocketSeesWriteOrder(actions, c, o, events, s);
      GrantedHasCalled(o, events, s);
      GrantedAdmitsAll(o, events, s, agent, key);
      R.FramesCarryTheirJobs(actions, c);
      GrantedLog(o, events, s, codecs, key, conn.token, agent, conn.order, conn.lockers, R.JobsOf(actions),
                 batches, nonces);
      if !k.parser.isProcessing { IdleHasCalledAll(o, events, s); }
      DecodeAll([Frame(AUTH, conn.token)] + conn.order);
      if Calls(k) == [Frame(AUTH, conn.token)] + conn.order {
        assert conn.lockers[..|Calls(k)| - 1] == conn.lockers;
      }
    }
  }

  // A granted socket whose calls are the Auth frame and some first frames of the senders.
  lemma GrantedLog(
    o: Oracles, events: seq<Event>, s: nat, codecs: B.Codecs, key: Key, token: seq<byte>, agent: AgentId,
    order: seq<Frame>, lockers: seq<nat>, jobs: seq<AgentLink.Job>, batches: seq<seq<string>>, nonces: seq<seq<byte>>)
    requires s < |Run(o, events).socks| && B.Laws(codecs) && |key| == 32
    requires forall p, k :: o.decrypt(p, k) == B.Unpack(codecs, p, k)
    requires FramesOfJobs(order, lockers, jobs) && PacksBatches(codecs, key, jobs, batches, nonces)
    requires o.verify(token) == Some(agent) && Admits(Run(o, events), s, agent, key)
    requires var k := Run(o, events).socks[s];
             k.granted.Some? && Calls(k) != [] && Calls(k) <= [Frame(AUTH, token)] + order && AuthOnlyFirst(Calls(k))
    ensures var k := Run(o, events).socks[s];
            && |Calls(k)| <= |lockers| + 1
            && var sent := SentBy(codecs, jobs, lockers[..|Calls(k)| - 1], batches);
               && RecordsOf(k.log) <= sent
               && (k.job.None? ==> RecordsOf(k.log) == sent)
               && (forall e :: e in k.log ==> e.agent == agent)
  {
    hide Run, B.Unpack, B.Pack, B.Laws, B.AllSendable, R.Carries, RecordsOf, Delivered, SentBy, PerFrame;
    var k := Run(o, events).socks[s];
    var n := |Calls(k)| - 1;
    var arrived, all := order[..n], PerFrame(batches, [], lockers);
    assert Calls(k) == [Frame(AUTH, token)] + arrived;
    forall i | 0 <= i < |arrived| ensures arrived[i].kind != AUTH { assert arrived[i] == Calls(k)[i + 1]; }
    OnlyDataAdmitted(o, events, s);
    FramesCarryBatches(codecs, key, order, lockers, jobs, batches, nonces);
    FewerFramesCarry(codecs, key, order, n, all, PerFrame(nonces, [], lockers));
    LogIsDelivered(o, events, s, codecs, key, token, agent, arrived, all, PerFrame(nonces, [], lockers));
    PrefixPerFrame(batches, lockers, n);
    FewerFramesOfJobs(order, lockers, jobs, n);
    SentIsDelivered(codecs, key, arrived, lockers[..n], jobs, batches, nonces, all);
  }

  lemma FewerFramesCarry(codecs: B.Codecs, key: Key, frames: seq<Frame>, n: nat,
                         batches: seq<seq<string>>, nonces: seq<seq<byte>>)
    requires CarriesBatches(codecs, key, frames, batches, nonces) && n <= |frames|
    ensures CarriesBatches(codecs, key, frames[..n], batches, nonces)
    ensures forall i :: 0 <= i < n && frames[i].kind == DATA ==> B.AllSendable(codecs, batches[i])
  {
    hide B.AllSendable, B.Pack;
  }

  lemma FewerFramesOfJobs(frames: seq<Frame>, lockers: seq<nat>, jobs: seq<AgentLink.Job>, n: nat)
    requires FramesOfJobs(frames, lockers, jobs) && n <= |frames|
    ensures FramesOfJobs(frames[..n], lockers[..n], jobs)
  {
    hide R.Carries;
  }

  lemma PrefixPerFrame(batches: seq<seq<string>>, lockers: seq<nat>, n: nat)
    requires n <= |lockers|
    ensures |PerFrame(batches, [], lockers)| == |lockers|
    ensures forall i :: 0 <= i < n ==> PerFrame(batches, [], lockers)[i] == PerFrame(batches, [], lockers[..n])[i]
  {
  }

  // No frame waits at an idle parser, and no callback runs.
  lemma IdleHasCalledAll(o: Oracles, events: seq<Event>, s: nat)
    requires s < |Run(o, events).socks| && !Run(o, events).socks[s].parser.isProcessing
    ensures Run(o, events).socks[s].job.None?
    ensures Calls(Run(o, events).socks[s]) == Decode(BytesIn(o, events, s)).frames
  {
    hide Run, BytesIn, EncodeAll, Take;
    var k := Run(o, events).socks[s];
    SocketsHoldWhatArrived(o, events, s);
    ReachableOk(o, events);
    assert SockOk(o, k, Run(o, events).everCached);
    DecodeEncoded(Calls(k), k.parser.buffer);
    assert Decode(k.parser.buffer).frames == [];
  }

  lemma GrantedHasCalled(o: Oracles, events: seq<Event>, s: nat)
    requires s < |Run(o, events).socks| && Run(o, events).socks[s].granted.Some?
    ensures Calls(Run(o, events).socks[s]) != []
  {
    hide Run;
    ReachableOk(o, events);
    assert SockOk(o, Run(o, events).socks[s], Run(o, events).everCached);
  }

  // ---- Where a worker's keys come from ----

  // At some moment of the key distribution, the worker's cache held this key for this agent.
  ghost predicate Held(actions: seq<KeySync.Action>, worker: KeySync.WorkerId, id: AgentId, key: Key) {
    exists n :: 0 <= n <= |actions| &&
      var cache := KeySync.CacheOf(KeySync.Run(actions[..n]), worker); id in cache && cache[id] == key
  }

  lemma {:induction false} CreatedKeysStay(actions: seq<KeySync.Action>, n: nat, id: AgentId)
    requires n <= |actions| && id in KeySync.Run(actions[..n]).created
    ensures id in KeySync.Run(actions).created
    ensures KeySync.Run(actions).created[id] == KeySync.Run(actions[..n]).created[id]
  {
    hide KeySync.Do, KeySync.Enabled;
    if n == |actions| {
      assert actions[..n] == actions;
    } else {
      var init := actions[..|actions| - 1];
      assert init[..n] == actions[..n];
      CreatedKeysStay(init, n, id);
      if KeySync.Enabled(KeySync.Run(init), actions[|actions| - 1]) {
        CreatedKeyStays(KeySync.Run(init), actions[|actions| - 1], id);
      }
    }
  }

  lemma CreatedKeyStays(n: KeySync.Net, a: KeySync.Action, id: AgentId)
    requires id in n.created && KeySync.Enabled(n, a)
    ensures id in KeySync.Do(n, a).created && KeySync.Do(n, a).created[id] == n.created[id]
  {
    hide KeySync.Push, KeySync.DownAll, KeySync.Apply;
  }

  lemma {:induction false} CachedWasLearned(o: Oracles, events: seq<Event>, id: AgentId, key: Key)
    requires (id, key) in Run(o, events).everCached
    ensures Learn(id, key) in events
  {
    hide Do, Enabled;
    var init, e := events[..|events| - 1], events[|events| - 1];
    var w := Run(o, init);
    if (id, key) in w.everCached {
      CachedWasLearned(o, init, id, key);
    } else if Enabled(w, e) {
      OnlyLearnCaches(o, w, e);
    }
  }

  // What was learned last of an agent.
  function LastLearned(o: Oracles, events: seq<Event>, id: AgentId): Option<Key> {
    if events == [] then None
    else
      var last := events[|events| - 1];
      if last.Learn? && last.id == id then Some(last.key) else LastLearned(o, events[..|events| - 1], id)
  }

  /** In every run, the cache holds for each agent the key that was learned last, and none is dropped. */
  lemma {:induction false} CacheIsLastLearned(o: Oracles, events: seq<Event>, id: AgentId)
    ensures Lookup(Run(o, events).keys, id) == LastLearned(o, events, id)
  {
    hide Do, Enabled;
    if events != [] {
      var init, e := events[..|events| - 1], events[|events| - 1];
      CacheIsLastLearned(o, init, id);
      LearnIsEnabled(Run(o, init), e);
      if Enabled(Run(o, init), e) { OnlyLearnKeys(o, Run(o, init), e); }
    }
  }

  lemma LearnIsEnabled(w: World, e: Event)
    ensures e.Learn? ==> Enabled(w, e)
  {
  }

  lemma OnlyLearnKeys(o: Oracles, w: World, e: Event)
    requires Enabled(w, e)
    ensures Do(o, w, e).keys == if e.Learn? then w.keys[e.id := e.key] else w.keys
  {
    hide P.Receive, P.Settle;
  }

  lemma OnlyLearnCaches(o: Oracles, w: World, e: Event)
    requires Enabled(w, e)
    ensures Do(o, w, e).everCached == w.everCached + if e.Learn? then {(e.id, e.key)} else {}
  {
    hide P.Receive, P.Settle;
  }

  /** Key distribution gives the hypothesis of the data path: a worker that learned all its keys from
      the master has never held another key for an agent than the one created for it. */
  lemma WorkersHoldOnlyCreatedKeys(
    actions: seq<KeySync.Action>, worker: KeySync.WorkerId, o: Oracles, events: seq<Event>, agent: AgentId)
    requires forall e :: e in events && e.Learn? ==> Held(actions, worker, e.id, e.key)
    requires agent in KeySync.Run(actions).created
    ensures OnlyKey(Run(o, events), agent, KeySync.Run(actions).created[agent])
  {
    hide Run, KeySync.Run;
    forall k | (agent, k) in Run(o, events).everCached ensures k == KeySync.Run(actions).created[agent] {
      CachedWasLearned(o, events, agent, k);
      assert Held(actions, worker, Learn(agent, k).id, Learn(agent, k).key);
      var n :| 0 <= n <= |actions| &&
        var cache := KeySync.CacheOf(KeySync.Run(actions[..n]), worker); agent in cache && cache[agent] == k;
      KeySync.CachedKeysAreGenuine(actions[..n]);
      CreatedKeysStay(actions, n, agent);
    }
  }

  lemma LogIsDelivered(
    o: Oracles, events: seq<Event>, s: nat, codecs: B.Codecs, key: Key, token: seq<byte>, agent: AgentId,
    arrived: seq<Frame>, batches: seq<seq<string>>, nonces: seq<seq<byte>>)
    requires s < |Run(o, events).socks| && Calls(Run(o, events).socks[s]) == [Frame(AUTH, token)] + arrived
    requires B.Laws(codecs) && |key| == B.AES_256_KEY_SIZE
    requires forall p, k :: o.decrypt(p, k) == B.Unpack(codecs, p, k)
    requires o.verify(token) == Some(agent)
    requires forall i :: 0 <= i < |arrived| ==> arrived[i].kind != AUTH
    requires CarriesBatches(codecs, key, arrived, batches, nonces)
    requires var k := Run(o, events).socks[s];
             && |k.admitted| == |arrived| + 1
             && forall i :: 0 <= i < |arrived| && arrived[i].kind == DATA ==> k.admitted[i + 1] == Some(key)
    ensures var k := Run(o, events).socks[s];
            && RecordsOf(k.log) <= Delivered(codecs, arrived, batches)
            && (k.job.None? ==> RecordsOf(k.log) == Delivered(codecs, arrived, batches))
            && (forall e :: e in k.log ==> e.agent == agent)
  {
    hide Run, B.Unpack, B.Pack, B.Laws, B.AllSendable, Expected, LastVerified, RecordsOf, Delivered;
    var k := Run(o, events).socks[s];
    OnlyDataAdmitted(o, events, s);
    forall i | 0 <= i < |arrived| ensures k.admitted[i + 1] == if arrived[i].kind == DATA then Some(key) else None {
      assert Calls(k)[i + 1] == arrived[i];
    }
    ExpectedIsDelivered(o, codecs, key, token, agent, arrived, batches, nonces, k.admitted);
    RecordsHandledInOrder(o, events, s);
    RecordsOfPrefix(k.log, Expected(o, Calls(k), k.admitted));
    forall e | e in k.log ensures e.agent == agent {
      assert e in Expected(o, Calls(k), k.admitted);
    }
  }

  lemma OnlyDataAdmitted(o: Oracles, events: seq<Event>, s: nat)
    requires s < |Run(o, events).socks|
    ensures var k := Run(o, events).socks[s];
            && |k.admitted| == |Calls(k)|
            && forall i :: 0 <= i < |k.admitted| && k.admitted[i].Some? ==> Calls(k)[i].kind == DATA
  {
    hide Run, Expected, LastVerified;
    ReachableOk(o, events);
    var w := Run(o, events);
    var k := w.socks[s];
    assert SockOk(o, k, w.everCached);
    forall i | 0 <= i < |k.admitted| && k.admitted[i].Some? ensures Calls(k)[i].kind == DATA {
      assert AdmissionOk(o, k, i, w.everCached);
    }
  }

  lemma {:induction false} RecordsOfPrefix(a: seq<Entry>, b: seq<Entry>)
    requires a <= b
    ensures RecordsOf(a) <= RecordsOf(b)
    decreases |b|
  {
    if a == b {
    } else {
      RecordsOfPrefix(a, b[..|b| - 1]);
    }
  }

  // ---- And back ----

  /** The way back. When Auth is the first frame an agent sent, the agent's handshake read sees the
      worker's answer to it, and accepts exactly if that answer is 0x00; the read loop behind it sees
      a prefix of the frames the worker wrote next, whole and in order, and all of them once all bytes
      have arrived. If Auth was sent only once, the agent accepts exactly if the worker granted it, and
      those frames are empty Pongs and Alerts. */
  lemma AgentReadsAnswerThenFrames(o: Oracles, events: seq<Event>, s: nat, arrived: seq<byte>)
    requires s < |Run(o, events).socks|
    requires var k := Run(o, events).socks[s];
             Calls(k) != [] && Calls(k)[0].kind == AUTH && 6 <= |arrived| && arrived <= EncodeAll(k.out)
    ensures var k := Run(o, events).socks[s];
            && k.out != []
            && (AgentLink.ReadAuthResponse(arrived).Accepted? <==> k.out[0] == Frame(AUTH_RESPONSE, [0]))
            && Decode(arrived[6..]).frames <= k.out[1..]
            && (arrived == EncodeAll(k.out) ==> Decode(arrived[6..]) == Decoded(k.out[1..], []))
            && (AuthOnlyFirst(Calls(k)) ==>
                  && (AgentLink.ReadAuthResponse(arrived).Accepted? <==> k.granted.Some?)
                  && forall i :: 0 < i < |k.out| ==> k.out[i] == Frame(PONG, []) || k.out[i].kind == ALERT)
  {
    hide Run, Decode, Take, GetU32, AgentLink.ReadAuthResponse, W.NoAlerts, W.Replies, W.EverRefused;
    var k := Run(o, events).socks[s];
    W.ReachableWires(o, events);
    ReachableOk(o, events);
    assert SockOk(o, k, Run(o, events).everCached);
    assert W.WireOk(k);
    var first, rest := k.out[0], k.out[1..];
    assert k.out == [first] + rest;
    AnswerThenFrames(first, rest, arrived);
    if AuthOnlyFirst(Calls(k)) {
      var replies := W.Replies(o, events, s);
      W.EveryFrameIsAnswered(o, events, s);
      W.RepliesAfterAuth(o, events, s);
      W.NoAlertsCons(first, rest);
      assert replies[0] == W.NoAlerts(k.out)[0] == first;
      if Frame(AUTH_RESPONSE, [0]) in replies {
        var j :| 0 <= j < |replies| && replies[j] == Frame(AUTH_RESPONSE, [0]);
        assert j == 0;
      }
      forall i | 0 < i < |k.out| ensures k.out[i] == Frame(PONG, []) || k.out[i].kind == ALERT {
        W.OnlyPongsAndAlertsFollow(first, rest, replies, i - 1);
      }
    }
  }

  lemma AnswerThenFrames(first: Frame, rest: seq<Frame>, arrived: seq<byte>)
    requires first.kind == AUTH_RESPONSE && |first.payload| == 1 && AllFit(rest)
    requires 6 <= |arrived| && arrived <= EncodeAll([first] + rest)
    ensures AgentLink.ReadAuthResponse(arrived).Accepted? <==> first == Response(0)
    ensures Decode(arrived[6..]).frames <= rest
    ensures arrived == EncodeAll([first] + rest) ==> Decode(arrived[6..]) == Decoded(rest, [])
  {
    hide Decode, Take, GetU32, AgentLink.ReadAuthResponse;
    EncodeAllCons(first, rest);
    assert |Encode(first)| == 6;
    assert arrived[..6] == Encode(first);
    assert arrived[6..] <= EncodeAll(rest);
    DecodePrefix(arrived[6..], rest);
    DecodeAll(rest);
    AgentLink.AcceptsExactly(arrived);
    if Encode(Response(0)) <= arrived {
      assert Encode(Response(0)) == Encode(first);
      TakeEncoded(first, []);
      TakeEncoded(Response(0), []);
    }
  }
}
