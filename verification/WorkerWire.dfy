/** What the worker writes to its sockets: answers, pongs and alerts, and what a client reads of it. */
module WorkerWire {
  import opened Shared
  import opened Frames
  import opened WorkerSessions
  import P = FrameParser

  ghost predicate AlertsAfterGrant(out: seq<Frame>) {
    forall i :: 0 <= i < |out| && out[i].kind == ALERT ==> Response(0) in out[..i]
  }

  ghost predicate WireOk(k: Socket) {
    && AllFit(k.out)
    && AlertsAfterGrant(k.out)
    && (k.admitted == [] ==> k.out == [])
    && (k.admitted != [] && Calls(k) != [] && Calls(k)[0].kind == AUTH ==>
          k.out != [] && k.out[0].kind == AUTH_RESPONSE && |k.out[0].payload| == 1)
  }

  // An agent is only registered for a socket that was told so.
  ghost predicate RegisteredWereGranted(w: World) {
    forall a :: a in w.registry ==>
      && w.registry[a] < |w.socks|
      && var k := w.socks[w.registry[a]];
         k.admitted != [] && (k.destroyed || k.closed || Response(0) in k.out)
  }

  lemma WriteKeepsWire(k: Socket, f: Frame)
    requires AllFit(k.out) && AlertsAfterGrant(k.out) && Fits(f)
    requires f.kind == ALERT ==> k.destroyed || k.closed || Response(0) in k.out
    ensures AllFit(Write(k, f).out) && AlertsAfterGrant(Write(k, f).out) && k.out <= Write(k, f).out
  {
    var out := Write(k, f).out;
    forall i | 0 <= i < |out| && out[i].kind == ALERT ensures Response(0) in out[..i] {
      if i < |k.out| {
        assert out[..i] == k.out[..i];
      } else {
        assert out[..i] == k.out;
      }
    }
  }

  lemma OnAuthKeepsWire(o: Oracles, w: World, s: nat, token: seq<byte>)
    requires s < |w.socks| && |Calls(w.socks[s])| == |w.socks[s].admitted| + 1
    requires WireOk(w.socks[s]) && RegisteredWereGranted(w)
    requires w.socks[s].admitted == [] ==> !w.socks[s].destroyed && !w.socks[s].closed
    ensures WireOk(OnAuth(o, w, s, token).socks[s]) && RegisteredWereGranted(OnAuth(o, w, s, token))
  {
    hide AllFit, AlertsAfterGrant;
    var k := w.socks[s];
    var n := OnAuth(o, w, s, token);
    var status: byte := match o.verify(token)
      case None => 2
      case Some(id) => if KeyFor(w, id).None? then 1 else 0;
    WriteKeepsWire(k, Response(status));
    assert n.socks[s].out == Write(k, Response(status)).out;
    forall a | a in n.registry
      ensures n.registry[a] < |n.socks| && n.socks[n.registry[a]].admitted != []
      ensures var m := n.socks[n.registry[a]]; m.destroyed || m.closed || Response(0) in m.out
    {
      assert (a in w.registry && n.registry[a] == w.registry[a]) || (status == 0 && n.registry[a] == s);
    }
  }

  lemma OnFrameKeepsWire(o: Oracles, w: World, s: nat)
    requires s < |w.socks| && |Calls(w.socks[s])| == |w.socks[s].admitted| + 1
    requires WireOk(w.socks[s]) && RegisteredWereGranted(w)
    requires w.socks[s].admitted == [] ==> !w.socks[s].destroyed && !w.socks[s].closed
    ensures WireOk(OnFrame(o, w, s).socks[s]) && RegisteredWereGranted(OnFrame(o, w, s))
  {
    hide AllFit, AlertsAfterGrant;
    var k := w.socks[s];
    var f := Calls(k)[|Calls(k)| - 1];
    if f.kind == AUTH {
      OnAuthKeepsWire(o, w, s, f.payload);
    } else {
      var n := OnFrame(o, w, s);
      WriteKeepsWire(k, Frame(PONG, []));
      assert k.out <= n.socks[s].out;
      forall a | a in n.registry
        ensures n.registry[a] < |n.socks| && n.socks[n.registry[a]].admitted != []
        ensures var m := n.socks[n.registry[a]]; m.destroyed || m.closed || Response(0) in m.out
      {
        assert a in w.registry;
      }
    }
  }

  ghost predicate WiresOk(w: World) {
    && (forall s :: 0 <= s < |w.socks| ==> WireOk(w.socks[s]))
    && RegisteredWereGranted(w)
  }

  lemma AdvanceKeepsWires(o: Oracles, w: World, s: nat, e: P.Event)
    requires s < |w.socks| && WiresOk(w) && SockOk(o, w.socks[s], w.everCached)
    requires e.Settled? ==> P.CallPending(w.socks[s].parser)
    requires e.Chunk? ==> !w.socks[s].destroyed && !w.socks[s].closed
    ensures WiresOk(Advance(o, w, s, P.Step(w.socks[s].parser, e)))
  {
    hide ParserOk, P.Step, OnFrame;
    var k := w.socks[s];
    var q := P.Step(k.parser, e);
    ParserMoves(k.parser, e);
    var moved := w.(socks := w.socks[s := k.(parser := q)]);
    assert WireOk(moved.socks[s]);
    AdvanceLocal(o, w, s, q);
    if |q.calls| > |Calls(k)| {
      OnFrameKeepsWire(o, moved, s);
    }
  }

  lemma StepKeepsWires(o: Oracles, w: World, e: Event)
    requires WorldOk(o, w) && WiresOk(w) && Enabled(w, e)
    ensures WiresOk(Do(o, w, e))
  {
    hide SockOk, P.Receive, P.Settle, Advance, WiresOk;
    match e
    case Data(s, chunk) =>
      assert P.Step(w.socks[s].parser, P.Chunk(chunk)) == P.Receive(w.socks[s].parser, chunk);
      AdvanceKeepsWires(o, w, s, P.Chunk(chunk));
    case Resume(s) =>
      if w.socks[s].job.None? {
        AdvanceKeepsWires(o, w, s, P.Settled);
      } else {
        JobKeepsWires(o, w, s);
      }
    case _ => PlainStepKeepsWires(o, w, e);
  }

  // What is written, registered and admitted does not depend on the callback's other state.
  lemma WiresDependOnWriting(w: World, n: World, s: nat)
    requires WiresOk(w) && s < |w.socks| && |n.socks| == |w.socks| && n == w.(socks := w.socks[s := n.socks[s]])
    requires var k, m := w.socks[s], n.socks[s];
             m == k.(job := m.job, log := m.log)
    ensures WiresOk(n)
  {
    hide AllFit, AlertsAfterGrant;
    assert WireOk(w.socks[s]);
  }

  lemma JobKeepsWires(o: Oracles, w: World, s: nat)
    requires WiresOk(w) && s < |w.socks| && w.socks[s].job.Some? && P.CallPending(w.socks[s].parser)
    ensures WiresOk(OnResume(o, w, s))
  {
    hide WiresOk;
    WiresDependOnWriting(w, OnResume(o, w, s), s);
  }

  lemma PlainStepKeepsWires(o: Oracles, w: World, e: Event)
    requires WiresOk(w) && Enabled(w, e) && !e.Data? && !e.Resume?
    ensures WiresOk(Do(o, w, e))
  {
    hide AllFit, AlertsAfterGrant;
    var n := Do(o, w, e);
    if e.Alert? {
      if n != w {
        WriteKeepsWire(w.socks[w.registry[e.agent]], Frame(ALERT, e.payload));
      }
    } else {
      NothingWritten();
      forall t | 0 <= t < |n.socks| ensures WireOk(n.socks[t]) { assert t < |w.socks| ==> WireOk(w.socks[t]); }
    }
  }

  lemma NothingWritten()
    ensures AllFit([]) && AlertsAfterGrant([])
  {
  }

  lemma {:induction false} ReachableWires(o: Oracles, events: seq<Event>)
    ensures WiresOk(Run(o, events))
  {
    hide WireOk, Do, WorldOk;
    if events != [] {
      var w := Run(o, events[..|events| - 1]);
      ReachableWires(o, events[..|events| - 1]);
      ReachableOk(o, events[..|events| - 1]);
      if Enabled(w, events[|events| - 1]) { StepKeepsWires(o, w, events[|events| - 1]); }
    }
  }

  /** In every run, no Alert is written to a socket before an Auth Response 0x00; if the first frame
      received was Auth, the first frame written is its answer, so the client's first read sees
      type 0x04 with one byte; and whatever part of the bytes has reached the client decodes to
      the frames written, in order. */
  lemma ClientReadsWhatWasWritten(o: Oracles, events: seq<Event>, s: nat, arrived: seq<byte>)
    requires s < |Run(o, events).socks|
    requires arrived <= EncodeAll(Run(o, events).socks[s].out)
    ensures var k := Run(o, events).socks[s];
            && AlertsAfterGrant(k.out)
            && Decode(arrived).frames <= k.out
            && (Calls(k) != [] && Calls(k)[0].kind == AUTH && arrived != [] ==>
                  arrived[0] == AUTH_RESPONSE && |k.out[0].payload| == 1)
  {
    hide Decode, Take, Run, ParserOk, AllFit, AlertsAfterGrant, EncodeAll, Expected, Outstanding, AdmissionOk;
    var w := Run(o, events);
    var k := w.socks[s];
    ReachableWires(o, events);
    assert WireOk(k);
    DecodePrefix(arrived, k.out);
    if Calls(k) != [] && Calls(k)[0].kind == AUTH && arrived != [] {
      ReachableOk(o, events);
      assert SockOk(o, k, w.everCached);
      FirstByteIsKind(k.out, arrived);
    }
  }

  lemma FirstByteIsKind(out: seq<Frame>, arrived: seq<byte>)
    requires out != [] && arrived != [] && arrived <= EncodeAll(out)
    ensures arrived[0] == out[0].kind
  {
    hide EncodeAll;
    EncodeAllCons(out[0], out[1..]);
    assert out == [out[0]] + out[1..];
    assert arrived[0] == EncodeAll(out)[0] == Encode(out[0])[0];
  }

  // ---- The answers, from the frames and the cache alone ----

  predicate KeyCached(keys: map<AgentId, Key>, id: AgentId) {
    id in keys && keys[id] != ""
  }

  // What a frame is answered with: 2 for a token that does not verify, 1 for an agent without a cached
  // key, 0 otherwise; a Pong for a Ping.
  function Reply(o: Oracles, keys: map<AgentId, Key>, f: Frame): seq<Frame> {
    if f.kind == AUTH then
      var status: byte :=
        if o.verify(f.payload).None? then 2 else if !KeyCached(keys, o.verify(f.payload).value) then 1 else 0;
      [Frame(AUTH_RESPONSE, [status])]
    else if f.kind == PING then [Frame(PONG, [])]
    else []
  }

  // Whether the frame ends the connection: a refused Auth, or Data that may not be sent.
  predicate Refuses(o: Oracles, w: World, k: Socket, f: Frame) {
    if f.kind == AUTH then o.verify(f.payload).None? || !KeyCached(w.keys, o.verify(f.payload).value)
    else
      f.kind == DATA &&
      !(k.granted.Some? && k.agentId.Some? && k.agentId.value != "" && KeyCached(w.keys, k.agentId.value))
  }

  // The frames called back on socket s by the last event of a run.
  function NewCalls(before: World, after: World, s: nat): seq<Frame> {
    if s < |before.socks| && s < |after.socks| && |Calls(before.socks[s])| <= |Calls(after.socks[s])| then
      Calls(after.socks[s])[|Calls(before.socks[s])|..]
    else []
  }

  // All that is due on socket s, in order, each frame judged by the cache of its moment.
  function Replies(o: Oracles, events: seq<Event>, s: nat): seq<Frame> {
    if events == [] then []
    else
      var init := events[..|events| - 1];
      var news := NewCalls(Run(o, init), Run(o, events), s);
      Replies(o, init, s) + if news == [] then [] else Reply(o, Run(o, init).keys, news[0])
  }

  predicate EverRefused(o: Oracles, events: seq<Event>, s: nat) {
    if events == [] then false
    else
      var init := events[..|events| - 1];
      var w := Run(o, init);
      var news := NewCalls(w, Run(o, events), s);
      EverRefused(o, init, s) || (news != [] && s < |w.socks| && Refuses(o, w, w.socks[s], news[0]))
  }

  // The frames written that are no alerts.
  function NoAlerts(out: seq<Frame>): seq<Frame> {
    if out == [] then []
    else
      var last := out[|out| - 1];
      NoAlerts(out[..|out| - 1]) + if last.kind == ALERT then [] else [last]
  }

  // All that is due was written, in order; after the end of the connection, what was due before it.
  // A socket is destroyed exactly if a frame was refused, and granted exactly if one was answered 0.
  ghost predicate Answered(k: Socket, replies: seq<Frame>, refused: bool) {
    && NoAlerts(k.out) <= replies
    && (!k.destroyed && !k.closed ==> NoAlerts(k.out) == replies)
    && (k.destroyed <==> refused)
    && (k.granted.Some? <==> Frame(AUTH_RESPONSE, [0]) in replies)
  }

  lemma NoAlertsSnoc(out: seq<Frame>, f: Frame)
    ensures NoAlerts(out + [f]) == NoAlerts(out) + if f.kind == ALERT then [] else [f]
  {
    assert (out + [f])[..|out|] == out;
  }

  lemma WriteAnswers(k: Socket, f: Frame, replies: seq<Frame>)
    requires f.kind != ALERT
    requires NoAlerts(k.out) <= replies && (!k.destroyed && !k.closed ==> NoAlerts(k.out) == replies)
    ensures var n := Write(k, f);
            && NoAlerts(n.out) <= replies + [f]
            && (!k.destroyed && !k.closed ==> NoAlerts(n.out) == replies + [f])
  {
    hide NoAlerts;
    NoAlertsSnoc(k.out, f);
  }

  lemma OnFrameAnswers(o: Oracles, w: World, s: nat, replies: seq<Frame>, refused: bool)
    requires s < |w.socks| && Calls(w.socks[s]) != [] && Answered(w.socks[s], replies, refused)
    requires w.socks[s].authenticated <==> w.socks[s].granted.Some?
    ensures var f := Calls(w.socks[s])[|Calls(w.socks[s])| - 1];
            Answered(OnFrame(o, w, s).socks[s], replies + Reply(o, w.keys, f), refused || Refuses(o, w, w.socks[s], f))
  {
    hide NoAlerts;
    var k := w.socks[s];
    var f := Calls(k)[|Calls(k)| - 1];
    assert replies + [] == replies;
    if f.kind == AUTH {
      AuthAnswers(o, w, s, f.payload, replies, refused);
    } else if f.kind == PING {
      WriteAnswers(k.(admitted := k.admitted + [None]), Frame(PONG, []), replies);
    }
  }

  lemma AuthAnswers(o: Oracles, w: World, s: nat, token: seq<byte>, replies: seq<Frame>, refused: bool)
    requires s < |w.socks| && Answered(w.socks[s], replies, refused)
    ensures var f := Frame(AUTH, token);
            Answered(OnAuth(o, w, s, token).socks[s], replies + Reply(o, w.keys, f),
                     refused || Refuses(o, w, w.socks[s], f))
  {
    hide NoAlerts;
    var k := w.socks[s];
    var named := k.(admitted := k.admitted + [None], agentId := o.verify(token));
    WriteAnswers(named, Response(0), replies);
    WriteAnswers(named, Response(1), replies);
    WriteAnswers(k.(admitted := k.admitted + [None]), Response(2), replies);
  }

  // ---- The same for a whole step and a whole run ----

  lemma AdvanceAnswers(o: Oracles, w: World, s: nat, e: P.Event, replies: seq<Frame>, refused: bool)
    requires s < |w.socks| && SockOk(o, w.socks[s], w.everCached) && Answered(w.socks[s], replies, refused)
    requires e.Settled? ==> P.CallPending(w.socks[s].parser)
    ensures var n := Advance(o, w, s, P.Step(w.socks[s].parser, e));
            && s < |n.socks|
            && var news := NewCalls(w, n, s);
               && |news| <= 1
               && Answered(n.socks[s], replies + (if news == [] then [] else Reply(o, w.keys, news[0])),
                           refused || (news != [] && Refuses(o, w, w.socks[s], news[0])))
  {
    hide ParserOk, P.Step, OnFrame, NoAlerts, Expected, Outstanding, AdmissionOk, LastVerified;
    var k := w.socks[s];
    var q := P.Step(k.parser, e);
    ParserMoves(k.parser, e);
    AdvanceLocal(o, w, s, q);
    assert replies + [] == replies;
    if |q.calls| > |Calls(k)| {
      var moved := w.(socks := w.socks[s := k.(parser := q)]);
      OnFrameAnswers(o, moved, s, replies, refused);
      ParserStays(o, moved, s);
    }
  }

  lemma ParserStays(o: Oracles, w: World, s: nat)
    requires s < |w.socks| && Calls(w.socks[s]) != []
    ensures s < |OnFrame(o, w, s).socks| && OnFrame(o, w, s).socks[s].parser == w.socks[s].parser
  {
  }

  lemma StepAnswers(o: Oracles, w: World, e: Event, s: nat, replies: seq<Frame>, refused: bool)
    requires WorldOk(o, w) && Enabled(w, e) && s < |w.socks| && Answered(w.socks[s], replies, refused)
    ensures var n := Do(o, w, e);
            && s < |n.socks|
            && var news := NewCalls(w, n, s);
               && |news| <= 1
               && Answered(n.socks[s], replies + (if news == [] then [] else Reply(o, w.keys, news[0])),
                           refused || (news != [] && Refuses(o, w, w.socks[s], news[0])))
  {
    hide SockOk, P.Receive, P.Settle, Advance, NoAlerts, Reply, Refuses, Answered;
    assert replies + [] == replies;
    match e
    case Data(t, chunk) =>
      assert P.Step(w.socks[t].parser, P.Chunk(chunk)) == P.Receive(w.socks[t].parser, chunk);
      AdvanceLocal(o, w, t, P.Receive(w.socks[t].parser, chunk));
      if t == s { AdvanceAnswers(o, w, s, P.Chunk(chunk), replies, refused); }
    case Resume(t) =>
      if w.socks[t].job.None? {
        AdvanceLocal(o, w, t, P.Settle(w.socks[t].parser));
        if t == s { AdvanceAnswers(o, w, s, P.Settled, replies, refused); }
      } else {
        JobsAnswerNothing(o, w, t, s, replies, refused);
      }
    case _ => PlainStepAnswers(o, w, e, s, replies, refused);
  }

  lemma JobsAnswerNothing(o: Oracles, w: World, t: nat, s: nat, replies: seq<Frame>, refused: bool)
    requires t < |w.socks| && w.socks[t].job.Some? && P.CallPending(w.socks[t].parser)
    requires s < |w.socks| && Answered(w.socks[s], replies, refused)
    ensures var n := OnResume(o, w, t);
            s < |n.socks| && NewCalls(w, n, s) == [] && Answered(n.socks[s], replies, refused)
  {
    hide NoAlerts, P.Settle, Advance;
  }

  lemma PlainStepAnswers(o: Oracles, w: World, e: Event, s: nat, replies: seq<Frame>, refused: bool)
    requires Enabled(w, e) && !e.Data? && !e.Resume? && s < |w.socks| && Answered(w.socks[s], replies, refused)
    ensures var n := Do(o, w, e);
            s < |n.socks| && NewCalls(w, n, s) == [] && Answered(n.socks[s], replies, refused)
  {
    hide NoAlerts;
    if e.Alert? {
      NoAlertsSnoc(w.socks[s].out, Frame(ALERT, e.payload));
      assert NoAlerts(w.socks[s].out) + [] == NoAlerts(w.socks[s].out);
    }
  }

  /** In every run, on every socket: apart from alerts, the frames written are, in order and nothing
      else, one Pong for each Ping and one Auth Response for each Auth received, which carries 2 exactly
      if the token does not verify, 1 exactly if it names an agent without a cached key at that step,
      and 0 otherwise; once the socket was destroyed or closed, those for the frames before that. It is
      destroyed exactly if a frame was refused, and granted exactly if an Auth was answered 0. */
  lemma {:induction false} EveryFrameIsAnswered(o: Oracles, events: seq<Event>, s: nat)
    requires s < |Run(o, events).socks|
    ensures Answered(Run(o, events).socks[s], Replies(o, events, s), EverRefused(o, events, s))
  {
    hide Do, Answered, WorldOk, Enabled, Reply, Refuses;
    var init, e := events[..|events| - 1], events[|events| - 1];
    var w := Run(o, init);
    if s < |w.socks| {
      EveryFrameIsAnswered(o, init, s);
      ReachableOk(o, init);
      if Enabled(w, e) {
        StepAnswers(o, w, e, s, Replies(o, init, s), EverRefused(o, init, s));
      } else {
        assert Replies(o, init, s) + [] == Replies(o, init, s);
      }
    } else {
      NewSocketIsFresh(o, w, e, s);
      NothingDue(o, events, s);
    }
  }

  // Before a socket exists, and at once when it does, nothing is due.
  lemma {:induction false} NothingDue(o: Oracles, events: seq<Event>, s: nat)
    requires events == [] || |Run(o, events[..|events| - 1]).socks| <= s
    ensures Replies(o, events, s) == [] && !EverRefused(o, events, s)
    ensures Answered(FRESH, [], false)
  {
    hide Do, Enabled, WorldOk;
    if events != [] {
      var init := events[..|events| - 1];
      if init != [] {
        SocketsOnlyGrow(o, init);
      }
      NothingDue(o, init, s);
    }
  }

  lemma SocketsOnlyGrow(o: Oracles, events: seq<Event>)
    requires events != []
    ensures |Run(o, events[..|events| - 1]).socks| <= |Run(o, events).socks|
  {
    hide P.Receive, P.Settle, Advance;
    var w, e := Run(o, events[..|events| - 1]), events[|events| - 1];
    if Enabled(w, e) {
      match e
      case Data(s, chunk) => AdvanceLocal(o, w, s, P.Receive(w.socks[s].parser, chunk));
      case Resume(s) => if w.socks[s].job.None? { AdvanceLocal(o, w, s, P.Settle(w.socks[s].parser)); }
      case _ =>
    }
  }

  // ---- One Auth, first: only Pongs and Alerts follow its answer ----

  lemma {:induction false} NoAlertsCons(f: Frame, rest: seq<Frame>)
    requires f.kind != ALERT
    ensures NoAlerts([f] + rest) == [f] + NoAlerts(rest)
  {
    if rest == [] {
      assert [f] + rest == [f] && [f][..0] == [];
    } else {
      assert ([f] + rest)[..|rest|] == [f] + rest[..|rest| - 1];
      NoAlertsCons(f, rest[..|rest| - 1]);
    }
  }

  lemma {:induction false} NoAlertsHas(out: seq<Frame>, i: nat) returns (j: nat)
    requires i < |out| && out[i].kind != ALERT
    ensures j < |NoAlerts(out)| && NoAlerts(out)[j] == out[i]
  {
    if i < |out| - 1 {
      j := NoAlertsHas(out[..|out| - 1], i);
    } else {
      j := |NoAlerts(out)| - 1;
    }
  }

  // The one Auth is due an answer, the frames behind it Pongs at most.
  ghost predicate OneAnswer(calls: seq<Frame>, replies: seq<Frame>) {
    if calls == [] then replies == []
    else
      && replies != [] && replies[0].kind == AUTH_RESPONSE
      && forall i :: 0 < i < |replies| ==> replies[i] == Frame(PONG, [])
  }

  lemma OneMoreAnswer(o: Oracles, keys: map<AgentId, Key>, calls: seq<Frame>, f: Frame, replies: seq<Frame>)
    requires OneAnswer(calls, replies)
    requires if calls == [] then f.kind == AUTH else f.kind != AUTH
    ensures OneAnswer(calls + [f], replies + Reply(o, keys, f))
  {
    hide KeyCached;
    var all := replies + Reply(o, keys, f);
    assert calls == [] ==> all == Reply(o, keys, f);
  }

  lemma {:induction false} RepliesAfterAuth(o: Oracles, events: seq<Event>, s: nat)
    requires s < |Run(o, events).socks|
    requires var calls := Calls(Run(o, events).socks[s]);
             && (calls != [] ==> calls[0].kind == AUTH)
             && forall j :: 0 < j < |calls| ==> calls[j].kind != AUTH
    ensures OneAnswer(Calls(Run(o, events).socks[s]), Replies(o, events, s))
  {
    hide Do, Answered, WorldOk, Enabled, Reply, OneAnswer;
    var init, e := events[..|events| - 1], events[|events| - 1];
    var w, n := Run(o, init), Run(o, events);
    if s < |w.socks| {
      ReachableOk(o, init);
      if Enabled(w, e) { OneMoreCall(o, w, e, s); }
      var earlier, later := Calls(w.socks[s]), Calls(n.socks[s]);
      assert forall j :: 0 <= j < |earlier| ==> earlier[j] == later[j];
      RepliesAfterAuth(o, init, s);
      assert Replies(o, init, s) + [] == Replies(o, init, s);
      if later != earlier {
        var f := later[|earlier|];
        assert later == earlier + [f];
        assert NewCalls(w, n, s) == [f];
        OneMoreAnswer(o, w.keys, earlier, f, Replies(o, init, s));
      }
    } else {
      NewSocketIsFresh(o, w, e, s);
      NothingDue(o, events, s);
      assert OneAnswer([], []) by { NoAnswer(); }
    }
  }

  lemma NoAnswer()
    ensures OneAnswer([], [])
  {
  }

  lemma AdmissionsMatch(o: Oracles, w: World, s: nat)
    requires WorldOk(o, w) && s < |w.socks|
    ensures |w.socks[s].admitted| == |Calls(w.socks[s])|
  {
    hide SockOk;
    assert SockOk(o, w.socks[s], w.everCached);
    AdmissionsMatchCalls(o, w.socks[s], w.everCached);
  }

  // A step calls back at most one frame.
  lemma OneMoreCall(o: Oracles, w: World, e: Event, s: nat)
    requires WorldOk(o, w) && Enabled(w, e) && s < |w.socks|
    ensures var n := Do(o, w, e);
            && s < |n.socks|
            && Calls(w.socks[s]) <= Calls(n.socks[s]) && |Calls(n.socks[s])| <= |Calls(w.socks[s])| + 1
  {
    hide Do, WorldOk, Enabled, Admission;
    AdmissionStep(o, w, e, s);
    StepKeepsWorld(o, w, e);
    AdmissionsMatch(o, w, s);
    AdmissionsMatch(o, Do(o, w, e), s);
  }

  lemma OnlyPongsAndAlertsFollow(first: Frame, rest: seq<Frame>, replies: seq<Frame>, i: nat)
    requires first.kind == AUTH_RESPONSE && NoAlerts([first] + rest) <= replies && i < |rest|
    requires forall j :: 0 < j < |replies| ==> replies[j] == Frame(PONG, [])
    ensures rest[i] == Frame(PONG, []) || rest[i].kind == ALERT
  {
    hide NoAlerts;
    if rest[i].kind != ALERT {
      NoAlertsCons(first, rest);
      var j := NoAlertsHas(rest, i);
      var tail := NoAlerts(rest);
      assert ([first] + tail)[j + 1] == tail[j];
      assert replies[j + 1] == rest[i];
    }
  }

  // ---- Alerts ----

  /** An alert for an agent whose socket is registered and open is written to that socket, whole and
      behind everything else, and to no other; in all other cases nothing is written at all. */
  lemma AlertIsWritten(o: Oracles, w: World, agent: AgentId, payload: seq<byte>)
    requires |payload| < U32_RANGE
    ensures var n := Do(o, w, Event.Alert(agent, payload));
            && |n.socks| == |w.socks| && n.registry == w.registry
            && forall s :: 0 <= s < |w.socks| ==>
                 n.socks[s].out ==
                 if agent in w.registry && w.registry[agent] == s && !w.socks[s].destroyed && !w.socks[s].closed
                 then w.socks[s].out + [Frame(ALERT, payload)] else w.socks[s].out
  {
  }
}
