/** The agent's side of the link: any number of sendBatch goroutines and the heartbeat share one
    connection, guarded by connMutex (the connection variable) and writeMutex (the writes).

    Each action below is one atomic step of one goroutine; a run is any interleaving of them. An
    action that is not enabled does not happen. */
module AgentLink {
  import opened Shared
  import opened Frames
  import FrameParser

  datatype Job = Batch(data: seq<byte>) | Heartbeat

  function FrameOf(job: Job): Frame {
    match job
    case Batch(data) => Frame(DATA, data)
    case Heartbeat => Frame(PING, [])
  }

  function AuthFrame(token: seq<byte>): Frame {
    Frame(AUTH, token)
  }

  // Where a goroutine stands; c is the index of the connection in its local variable.
  datatype Pc =
    | Outside                   // holds no lock and no connection
    | Dialing(c: nat, parts: nat) // inside getTCPConnection, with connMutex; parts of Auth written
    | HasConn(c: nat)           // got the connection, holds no lock
    | InLock(c: nat)            // holds writeMutex, nothing written yet
    | HeaderSent(c: nat)        // holds writeMutex, payload still to be written
    | Written(c: nat, ok: bool) // holds writeMutex, all writes done
    | MustClose                 // a write failed, about to call closeTCPConnection
    | Finished

  datatype Goroutine = Goroutine(job: Job, pc: Pc)

  // sent: all bytes written; intact: those before the first failed write; order: the frames whose
  // senders acquired writeMutex for this connection, in that order; lockers: those senders; reply: the
  // bytes read while waiting for the Auth Response.
  datatype Conn = Conn(token: seq<byte>, published: bool, closed: bool, failed: bool, sent: seq<byte>,
                       intact: seq<byte>, order: seq<Frame>, lockers: seq<nat>, reply: seq<byte>)

  datatype Link = Link(tcpConn: Option<nat>, connMutex: Option<nat>, writeMutex: Option<nat>,
                       conns: seq<Conn>, threads: seq<Goroutine>)

  const INITIAL := Link(None, None, None, [], [])

  datatype AuthResult = Accepted | Refused(status: byte) | Malformed | Cut

  // The handshake's read: header, type, length, status byte; a reply that stops early is a read error.
  function ReadAuthResponse(reply: seq<byte>): AuthResult {
    if |reply| < 5 then Cut
    else if reply[0] != AUTH_RESPONSE then Malformed
    else if GetU32(reply[1..5]) != 1 then Malformed
    else if |reply| < 6 then Cut
    else if reply[5] != 0 then Refused(reply[5])
    else Accepted
  }

  datatype Action =
    | Start(job: Job)                          // go sendBatch(batch), or the heartbeat goroutine
    | Reuse(t: nat)                            // tcpConn is set: use it
    | Dial(t: nat, token: seq<byte>)           // tcpConn is nil: connect, connMutex stays locked
    | AuthWrite(t: nat)                        // Auth header, then token
    | AuthWriteFails(t: nat, junk: seq<byte>)
    | AuthAnswer(t: nat, reply: seq<byte>)     // publish the connection, or give it up
    | Lock(t: nat)
    | Write(t: nat)                            // frame header, then payload
    | WriteFails(t: nat, junk: seq<byte>)
    | Unlock(t: nat)
    | CloseAfterFailure(t: nat)
    | CloseCurrent                             // closeTCPConnection from readLoop, a handshake or a signal

  // A goroutine that was never started behaves like one that has returned.
  function PcOf(l: Link, t: nat): Pc {
    if t < |l.threads| then l.threads[t].pc else Finished
  }

  predicate Writing(l: Link, t: nat) {
    PcOf(l, t).InLock? || PcOf(l, t).HeaderSent?
  }

  predicate Enabled(l: Link, a: Action) {
    match a
    case Start(_) => true
    case Reuse(t) => PcOf(l, t).Outside? && l.connMutex.None? && l.tcpConn.Some?
    case Dial(t, token) => PcOf(l, t).Outside? && l.threads[t].job.Batch?
                           && l.connMutex.None? && l.tcpConn.None? && token != []
    case AuthWrite(t) => PcOf(l, t).Dialing? && PcOf(l, t).parts < 2
    case AuthWriteFails(t, _) => PcOf(l, t).Dialing? && PcOf(l, t).parts < 2
    case AuthAnswer(t, _) => PcOf(l, t).Dialing? && PcOf(l, t).parts == 2
    case Lock(t) => PcOf(l, t).HasConn? && l.writeMutex.None?
    case Write(t) => Writing(l, t) && PcOf(l, t).c < |l.conns| && !l.conns[PcOf(l, t).c].closed
    case WriteFails(t, _) => Writing(l, t)
    case Unlock(t) => PcOf(l, t).Written?
    case CloseAfterFailure(t) => PcOf(l, t).MustClose? && l.connMutex.None?
    case CloseCurrent => l.connMutex.None?
  }

  function SetPc(l: Link, t: nat, pc: Pc): Link
    requires t < |l.threads|
  {
    l.(threads := l.threads[t := l.threads[t].(pc := pc)])
  }

  function Wrote(c: Conn, data: seq<byte>): Conn {
    c.(sent := c.sent + data, intact := if c.failed then c.intact else c.intact + data)
  }

  function WriteFailed(c: Conn, junk: seq<byte>): Conn {
    c.(sent := c.sent + junk, failed := true)
  }

  function Close(l: Link): Link {
    if l.tcpConn.Some? && l.tcpConn.value < |l.conns| then
      var c := l.tcpConn.value;
      l.(tcpConn := None, conns := l.conns[c := l.conns[c].(closed := true)])
    else l.(tcpConn := None)
  }

  // The two writes of the Auth frame, and the state they leave behind.
  function AuthPart(token: seq<byte>, part: nat): seq<byte> {
    if part == 0 then Header(AuthFrame(token)) else token
  }

  ghost predicate WellIndexed(l: Link) {
    forall t :: 0 <= t < |l.threads| ==>
      var pc := l.threads[t].pc;
      pc.Dialing? || pc.HasConn? || pc.InLock? || pc.HeaderSent? || pc.Written? ==> pc.c < |l.conns|
  }

  ghost function Do(l: Link, a: Action): Link
    requires Enabled(l, a) && WellIndexed(l)
  {
    match a
    case Start(job) => l.(threads := l.threads + [Goroutine(job, Outside)])
    case Reuse(t) => SetPc(l, t, HasConn(l.tcpConn.value))
    case Dial(t, token) =>
      var dialed := Conn(token, false, false, false, [], [], [], [], []);
      SetPc(l, t, Dialing(|l.conns|, 0)).(connMutex := Some(t), conns := l.conns + [dialed])
    case AuthWrite(t) =>
      var Dialing(c, parts) := l.threads[t].pc;
      SetPc(l, t, Dialing(c, parts + 1))
      .(conns := l.conns[c := Wrote(l.conns[c], AuthPart(l.conns[c].token, parts))])
    case AuthWriteFails(t, junk) =>
      var c := l.threads[t].pc.c;
      SetPc(l, t, Outside)
      .(connMutex := None, conns := l.conns[c := WriteFailed(l.conns[c], junk).(closed := true)])
    case AuthAnswer(t, reply) =>
      var c := l.threads[t].pc.c;
      var answered := l.conns[c].(reply := reply);
      if ReadAuthResponse(reply).Accepted? then
        SetPc(l, t, HasConn(c))
        .(connMutex := None, tcpConn := Some(c), conns := l.conns[c := answered.(published := true)])
      else
        SetPc(l, t, Outside)
        .(connMutex := None, conns := l.conns[c := answered.(closed := true)])
    case Lock(t) =>
      var c := l.threads[t].pc.c;
      var conn := l.conns[c];
      var locked := conn.(order := conn.order + [FrameOf(l.threads[t].job)], lockers := conn.lockers + [t]);
      SetPc(l, t, InLock(c)).(writeMutex := Some(t), conns := l.conns[c := locked])
    case Write(t) =>
      var c := l.threads[t].pc.c;
      var frame := FrameOf(l.threads[t].job);
      if l.threads[t].pc.InLock? then
        SetPc(l, t, if l.threads[t].job.Batch? then HeaderSent(c) else Written(c, true))
        .(conns := l.conns[c := Wrote(l.conns[c], Header(frame))])
      else
        SetPc(l, t, Written(c, true)).(conns := l.conns[c := Wrote(l.conns[c], frame.payload)])
    case WriteFails(t, junk) =>
      var c := l.threads[t].pc.c;
      SetPc(l, t, Written(c, false)).(conns := l.conns[c := WriteFailed(l.conns[c], junk)])
    case Unlock(t) =>
      var ok := l.threads[t].pc.ok;
      var after := if !ok then MustClose else if l.threads[t].job.Batch? then Finished else Outside;
      SetPc(l, t, after).(writeMutex := None)
    case CloseAfterFailure(t) => SetPc(Close(l), t, Outside)
    case CloseCurrent => Close(l)
  }

  // Bytes of its frame the writeMutex holder has not written yet, if it writes to c.
  ghost function Owed(l: Link, c: nat): seq<byte> {
    if l.writeMutex.None? || l.writeMutex.value >= |l.threads| then []
    else
      var g := l.threads[l.writeMutex.value];
      if g.pc == InLock(c) then Encode(FrameOf(g.job))
      else if g.pc == HeaderSent(c) then FrameOf(g.job).payload
      else []
  }

  ghost predicate ThreadOk(l: Link, t: nat)
    requires t < |l.threads|
  {
    match l.threads[t].pc
    case Dialing(c, parts) =>
      && l.connMutex == Some(t) && c < |l.conns| && parts <= 2
      && var conn := l.conns[c];
         !conn.published && !conn.failed &&
         conn.intact == (if parts == 0 then [] else if parts == 1 then Header(AuthFrame(conn.token))
                         else Encode(AuthFrame(conn.token)))
    case HasConn(c) => c < |l.conns| && l.conns[c].published
    case InLock(c) => c < |l.conns| && l.conns[c].published && l.writeMutex == Some(t)
    case HeaderSent(c) => c < |l.conns| && l.conns[c].published && l.writeMutex == Some(t)
                          && l.threads[t].job.Batch?
    case Written(c, _) => c < |l.conns| && l.writeMutex == Some(t)
    case _ => true
  }

  // What the frames locked in so far for a connection amount to on the wire.
  ghost function Expected(conn: Conn): seq<byte> {
    EncodeAll([AuthFrame(conn.token)] + conn.order)
  }

  ghost predicate ConnOk(l: Link, c: nat)
    requires c < |l.conns|
  {
    var conn := l.conns[c];
    && (!conn.failed ==> conn.sent == conn.intact)
    && conn.intact <= Expected(conn)
    && (!conn.published ==> conn.order == [])
    && (conn.published ==> ReadAuthResponse(conn.reply).Accepted?)
    && (conn.published && !conn.failed ==> conn.intact + Owed(l, c) == Expected(conn))
    && (forall i :: 0 <= i < |conn.order| ==> conn.order[i].kind == DATA || conn.order[i] == Frame(PING, []))
  }

  ghost predicate LocksOk(l: Link) {
    && (l.tcpConn.Some? ==> l.tcpConn.value < |l.conns| && l.conns[l.tcpConn.value].published)
    && (l.connMutex.Some? ==> PcOf(l, l.connMutex.value).Dialing?)
    && (l.writeMutex.Some? ==> Writing(l, l.writeMutex.value) || PcOf(l, l.writeMutex.value).Written?)
  }

  ghost predicate Inv(l: Link) {
    && (forall t :: 0 <= t < |l.threads| ==> ThreadOk(l, t))
    && (forall c :: 0 <= c < |l.conns| ==> ConnOk(l, c))
    && LocksOk(l)
  }

  lemma InvIndexes(l: Link)
    requires Inv(l)
    ensures WellIndexed(l)
  {
    forall t | 0 <= t < |l.threads|
      ensures var pc := l.threads[t].pc;
              pc.Dialing? || pc.HasConn? || pc.InLock? || pc.HeaderSent? || pc.Written? ==> pc.c < |l.conns|
    {
      assert ThreadOk(l, t);
    }
  }

  lemma ExpectedFresh(conn: Conn)
    requires conn.order == []
    ensures Expected(conn) == Encode(AuthFrame(conn.token))
  {
    EncodeAllSnoc([], AuthFrame(conn.token));
    assert [AuthFrame(conn.token)] + conn.order == [] + [AuthFrame(conn.token)];
  }

  lemma ExpectedGrows(conn: Conn, f: Frame)
    ensures Expected(conn.(order := conn.order + [f])) == Expected(conn) + Encode(f)
  {
    EncodeAllSnoc([AuthFrame(conn.token)] + conn.order, f);
    assert [AuthFrame(conn.token)] + (conn.order + [f]) == ([AuthFrame(conn.token)] + conn.order) + [f];
  }

  lemma CloseKeepsInv(l: Link)
    requires Inv(l)
    ensures Inv(Close(l))
  {
    hide Expected, Encode;
    var n := Close(l);
    forall t | 0 <= t < |n.threads| ensures ThreadOk(n, t) { assert ThreadOk(l, t); }
    forall c | 0 <= c < |n.conns| ensures ConnOk(n, c) {
      assert ConnOk(l, c);
      assert Expected(n.conns[c]) == Expected(l.conns[c]) by { ExpectedCongruence(n.conns[c], l.conns[c]); }
    }
  }

  lemma ExpectedCongruence(a: Conn, b: Conn)
    requires a.token == b.token && a.order == b.order
    ensures Expected(a) == Expected(b)
  {
  }

  lemma StartReuseKeepInv(l: Link, a: Action)
    requires Inv(l) && WellIndexed(l) && Enabled(l, a)
    requires a.Start? || a.Reuse?
    ensures Inv(Do(l, a))
  {
    hide Expected, Encode, ReadAuthResponse;
    var n := Do(l, a);
    forall t | 0 <= t < |n.threads| ensures ThreadOk(n, t) { assert t < |l.threads| ==> ThreadOk(l, t); }
    forall c | 0 <= c < |n.conns| ensures ConnOk(n, c) { assert ConnOk(l, c); }
  }

  lemma CloseAfterFailureKeepsInv(l: Link, t: nat)
    requires Inv(l) && t < |l.threads| && l.threads[t].pc.MustClose?
    ensures Inv(SetPc(Close(l), t, Outside))
  {
    hide Expected, Encode, ReadAuthResponse;
    CloseKeepsInv(l);
    var m := Close(l);
    var n := SetPc(m, t, Outside);
    forall u | 0 <= u < |n.threads| ensures ThreadOk(n, u) { assert ThreadOk(m, u); }
    forall c | 0 <= c < |n.conns| ensures ConnOk(n, c) { assert ConnOk(m, c); }
  }

  lemma DialKeepsInv(l: Link, a: Action)
    requires Inv(l) && WellIndexed(l) && Enabled(l, a)
    requires a.Dial?
    ensures Inv(Do(l, a))
  {
    hide Expected, Encode, ReadAuthResponse;
    var n := Do(l, a);
    forall t | 0 <= t < |n.threads| ensures ThreadOk(n, t) { assert ThreadOk(l, t); }
    forall c | 0 <= c < |l.conns| ensures ConnOk(n, c) { assert ConnOk(l, c); }
    assert ConnOk(n, |l.conns|);
  }

  // The connection whose Auth frame is being written.
  lemma AuthWriteConn(l: Link, a: Action)
    requires Inv(l) && WellIndexed(l) && Enabled(l, a)
    requires a.AuthWrite?
    ensures ConnOk(Do(l, a), l.threads[a.t].pc.c) && ThreadOk(Do(l, a), a.t)
  {
    hide Expected, EncodeAll, Header, ReadAuthResponse;
    var n := Do(l, a);
    var c0 := l.threads[a.t].pc.c;
    assert ThreadOk(l, a.t) && ConnOk(l, c0);
    ExpectedFresh(n.conns[c0]);
  }

  lemma AuthWriteOthers(l: Link, a: Action, t: nat)
    requires Inv(l) && WellIndexed(l) && Enabled(l, a)
    requires a.AuthWrite? && t < |l.threads| && t != a.t
    ensures ThreadOk(Do(l, a), t)
  {
    hide ConnOk, Encode, Header, AuthPart, FrameOf;
    assert ThreadOk(l, a.t) && ThreadOk(l, t);
  }

  lemma AuthWriteKeepsInv(l: Link, a: Action)
    requires Inv(l) && WellIndexed(l) && Enabled(l, a)
    requires a.AuthWrite?
    ensures Inv(Do(l, a))
  {
    hide Expected, EncodeAll, Encode, Header, ReadAuthResponse, AuthPart, FrameOf, ThreadOk;
    var n := Do(l, a);
    var c0 := l.threads[a.t].pc.c;
    assert ThreadOk(l, a.t);
    AuthWriteConn(l, a);
    forall t | 0 <= t < |n.threads| ensures ThreadOk(n, t) { if t != a.t { AuthWriteOthers(l, a, t); } }
    forall c | 0 <= c < |n.conns| ensures ConnOk(n, c) { if c != c0 { assert ConnOk(l, c); } }
  }

  lemma AuthFailKeepsInv(l: Link, a: Action)
    requires Inv(l) && WellIndexed(l) && Enabled(l, a)
    requires a.AuthWriteFails?
    ensures Inv(Do(l, a))
  {
    hide Expected, EncodeAll, Header, ReadAuthResponse;
    var n := Do(l, a);
    var c0 := l.threads[a.t].pc.c;
    assert ThreadOk(l, a.t) && ConnOk(l, c0);
    ExpectedCongruence(n.conns[c0], l.conns[c0]);
    forall t | 0 <= t < |n.threads| ensures ThreadOk(n, t) { assert ThreadOk(l, t); }
    forall c | 0 <= c < |n.conns| ensures ConnOk(n, c) { assert ConnOk(l, c); }
  }

  // The connection whose Auth frame was answered with 0x00.
  lemma AuthAnswerConn(l: Link, a: Action)
    requires Inv(l) && WellIndexed(l) && Enabled(l, a)
    requires a.AuthAnswer? && ReadAuthResponse(a.reply).Accepted?
    ensures ConnOk(Do(l, a), l.threads[a.t].pc.c)
  {
    hide Expected, EncodeAll, Encode, Header, ReadAuthResponse, FrameOf;
    var n := Do(l, a);
    var c0 := l.threads[a.t].pc.c;
    assert ThreadOk(l, a.t) && ConnOk(l, c0);
    NothingOwed(l, c0);
    assert Owed(n, c0) == [];
    ExpectedCongruence(n.conns[c0], l.conns[c0]);
    ExpectedFresh(l.conns[c0]);
    assert l.conns[c0].intact + [] == l.conns[c0].intact;
  }

  lemma AuthAnswerKeepsInv(l: Link, a: Action)
    requires Inv(l) && WellIndexed(l) && Enabled(l, a)
    requires a.AuthAnswer? && ReadAuthResponse(a.reply).Accepted?
    ensures Inv(Do(l, a))
  {
    hide Expected, EncodeAll, Encode, Header, ReadAuthResponse, FrameOf;
    var n := Do(l, a);
    var c0 := l.threads[a.t].pc.c;
    assert ThreadOk(l, a.t);
    AuthAnswerConn(l, a);
    forall t | 0 <= t < |n.threads| ensures ThreadOk(n, t) { assert ThreadOk(l, t); }
    forall c | 0 <= c < |n.conns| ensures ConnOk(n, c) { if c != c0 { assert ConnOk(l, c); } }
  }

  lemma AuthRefusedKeepsInv(l: Link, a: Action)
    requires Inv(l) && WellIndexed(l) && Enabled(l, a)
    requires a.AuthAnswer? && !ReadAuthResponse(a.reply).Accepted?
    ensures Inv(Do(l, a))
  {
    hide Expected, EncodeAll, Header, ReadAuthResponse;
    var n := Do(l, a);
    var c0 := l.threads[a.t].pc.c;
    assert ThreadOk(l, a.t) && ConnOk(l, c0);
    ExpectedCongruence(n.conns[c0], l.conns[c0]);
    forall t | 0 <= t < |n.threads| ensures ThreadOk(n, t) { assert ThreadOk(l, t); }
    forall c | 0 <= c < |n.conns| ensures ConnOk(n, c) { assert ConnOk(l, c); }
  }

  lemma NothingOwed(l: Link, c: nat)
    requires Inv(l) && c < |l.conns| && !l.conns[c].published
    ensures Owed(l, c) == []
  {
    if l.writeMutex.Some? { assert ThreadOk(l, l.writeMutex.value); }
  }

  // The connection that was written to.
  lemma WriteConn(l: Link, a: Action)
    requires Inv(l) && WellIndexed(l) && Enabled(l, a)
    requires a.Write? || a.WriteFails?
    ensures ConnOk(Do(l, a), l.threads[a.t].pc.c)
  {
    hide Expected, EncodeAll, Header, ReadAuthResponse, FrameOf;
    var n := Do(l, a);
    var c := l.threads[a.t].pc.c;
    assert ThreadOk(l, a.t) && ConnOk(l, c);
    ExpectedCongruence(n.conns[c], l.conns[c]);
    if a.Write? {
      var f := FrameOf(l.threads[a.t].job);
      HeartbeatHasNoPayload(l.threads[a.t].job);
      if !l.conns[c].failed {
        WriteAdds(l.conns[c].intact, Header(f), f.payload, Expected(l.conns[c]));
      }
    }
  }

  lemma HeartbeatHasNoPayload(job: Job)
    ensures job.Heartbeat? ==> FrameOf(job).payload == []
  {
  }

  // The two writes of a frame, as bytes.
  lemma WriteAdds(intact: seq<byte>, header: seq<byte>, payload: seq<byte>, expected: seq<byte>)
    ensures intact + (header + payload) == expected ==>
              intact + header + payload == expected && intact + header <= expected
    ensures intact + payload == expected ==> intact + payload + [] == expected
    ensures payload == [] && intact + (header + payload) == expected ==> intact + header + [] == expected
  {
    ConcatAssoc(intact, header, payload);
    assert header + [] == header;
  }

  lemma WriteOthers(l: Link, a: Action, t: nat)
    requires Inv(l) && WellIndexed(l) && Enabled(l, a)
    requires (a.Write? || a.WriteFails?) && t < |l.threads|
    ensures ThreadOk(Do(l, a), t)
  {
    hide ConnOk, Encode, Header, FrameOf;
    assert ThreadOk(l, a.t) && ThreadOk(l, t);
  }

  lemma WriteKeepsInv(l: Link, a: Action)
    requires Inv(l) && WellIndexed(l) && Enabled(l, a)
    requires a.Write? || a.WriteFails?
    ensures Inv(Do(l, a))
  {
    hide Expected, EncodeAll, Encode, Header, ReadAuthResponse, FrameOf, ThreadOk;
    var n := Do(l, a);
    var c0 := l.threads[a.t].pc.c;
    assert ThreadOk(l, a.t);
    WriteConn(l, a);
    forall t | 0 <= t < |n.threads| ensures ThreadOk(n, t) { WriteOthers(l, a, t); }
    forall c | 0 <= c < |n.conns| ensures ConnOk(n, c) { if c != c0 { assert ConnOk(l, c); } }
  }

  lemma LockKeepsInv(l: Link, a: Action)
    requires Inv(l) && WellIndexed(l) && Enabled(l, a)
    requires a.Lock? || a.Unlock?
    ensures Inv(Do(l, a))
  {
    hide Expected, EncodeAll, Encode, ReadAuthResponse;
    var n := Do(l, a);
    var c0 := l.threads[a.t].pc.c;
    assert ThreadOk(l, a.t);
    forall t | 0 <= t < |n.threads| ensures ThreadOk(n, t) { assert ThreadOk(l, t); }
    forall c | 0 <= c < |n.conns| ensures ConnOk(n, c) {
      assert ConnOk(l, c);
      if a.Lock? && c == c0 {
        var f := FrameOf(l.threads[a.t].job);
        ExpectedGrows(l.conns[c], f);
        ExpectedCongruence(n.conns[c], l.conns[c].(order := l.conns[c].order + [f]));
        assert l.conns[c].intact + [] == l.conns[c].intact;
      }
    }
  }

  lemma StepKeepsInv(l: Link, a: Action)
    requires Inv(l) && WellIndexed(l) && Enabled(l, a)
    ensures Inv(Do(l, a))
  {
    hide Inv;
    match a
    case Start(_) => StartReuseKeepInv(l, a);
    case Reuse(_) => StartReuseKeepInv(l, a);
    case Dial(_, _) => DialKeepsInv(l, a);
    case AuthWrite(_) => AuthWriteKeepsInv(l, a);
    case AuthWriteFails(_, _) => AuthFailKeepsInv(l, a);
    case AuthAnswer(_, reply) =>
      if ReadAuthResponse(reply).Accepted? { AuthAnswerKeepsInv(l, a); } else { AuthRefusedKeepsInv(l, a); }
    case Lock(_) => LockKeepsInv(l, a);
    case Unlock(_) => LockKeepsInv(l, a);
    case Write(_) => WriteKeepsInv(l, a);
    case WriteFails(_, _) => WriteKeepsInv(l, a);
    case CloseAfterFailure(t) => CloseAfterFailureKeepsInv(l, t);
    case CloseCurrent => CloseKeepsInv(l);
  }

  // The state after a run; an action that is not enabled when its turn comes does not happen.
  ghost function Run(actions: seq<Action>): (l: Link)
    ensures Inv(l) && WellIndexed(l)
  {
    if actions == [] then INITIAL
    else
      var before := Run(actions[..|actions| - 1]);
      var a := actions[|actions| - 1];
      if Enabled(before, a) then
        StepKeepsInv(before, a);
        InvIndexes(Do(before, a));
        Do(before, a)
      else before
  }

  /** For every interleaving of any number of senders and the heartbeat, on every connection:
      the bytes before its first failed write are the beginning of one Auth frame followed by the
      frames of the senders in the order they acquired writeMutex; between two senders they are
      exactly that; every later frame is a whole Data or Ping frame; and nothing but the Auth frame
      is written before the connection is published, which only a 0x00 answer does. */
  lemma WritesAreWholeFrames(actions: seq<Action>, c: nat)
    requires c < |Run(actions).conns|
    ensures var l := Run(actions); var conn := l.conns[c];
            && conn.intact <= EncodeAll([Frame(AUTH, conn.token)] + conn.order)
            && (!conn.failed ==> conn.sent == conn.intact)
            && (conn.published && !conn.failed && Owed(l, c) == [] ==>
                  conn.sent == EncodeAll([Frame(AUTH, conn.token)] + conn.order))
            && (forall i :: 0 <= i < |conn.order| ==>
                  conn.order[i].kind == DATA || conn.order[i] == Frame(PING, []))
            && (!conn.published ==> conn.order == [] && conn.intact <= Encode(Frame(AUTH, conn.token)))
            && (conn.published ==> ReadAuthResponse(conn.reply) == Accepted)
  {
    hide Encode, ReadAuthResponse;
    var conn := Run(actions).conns[c];
    assert ConnOk(Run(actions), c);
    assert conn.intact + [] == conn.intact;
    if !conn.published { ExpectedFresh(conn); }
  }

  /** Agent to worker, end to end: whatever the interleaving of the senders, the chunks the bytes
      arrive in and the pace of the callbacks, the worker's parser is called with a prefix of
      [Auth] + the frames in writeMutex order. So Auth is the first frame and only the first. */
  lemma ReceiverSeesWriteOrder(actions: seq<Action>, c: nat, events: seq<FrameParser.Event>)
    requires c < |Run(actions).conns|
    requires var conn := Run(actions).conns[c];
             && AllFit([AuthFrame(conn.token)] + conn.order)
             && FrameParser.BytesOf(events) <= conn.intact
    ensures var conn := Run(actions).conns[c]; var calls := FrameParser.Run(events).calls;
            && calls <= [AuthFrame(conn.token)] + conn.order
            && (forall i :: 0 < i < |calls| ==> calls[i].kind != AUTH)
  {
    hide Encode, EncodeAll, ReadAuthResponse, Run, FrameParser.Run, Decode;
    var conn := Run(actions).conns[c];
    WritesAreWholeFrames(actions, c);
    var bytes := FrameParser.BytesOf(events);
    var all := [AuthFrame(conn.token)] + conn.order;
    DecodePrefix(bytes, all);
    FrameParser.DeliveryFollowsStream(events);
    var calls := FrameParser.Run(events).calls;
    forall i | 0 < i < |calls| ensures calls[i].kind != AUTH {
      assert calls[i] == all[i] == conn.order[i - 1];
    }
  }

  /** readLoop: reads header, then payload, until the stream stops. It sees exactly the frames of
      the stream. */
  method ReadLoop(stream: seq<byte>) returns (seen: seq<Frame>, rest: seq<byte>)
    ensures Decoded(seen, rest) == Decode(stream)
  {
    seen, rest := [], stream;
    while true
      invariant seen + Decode(rest).frames == Decode(stream).frames
      invariant Decode(rest).rest == Decode(stream).rest
      decreases |rest|
    {
      if |rest| < HEADER_SIZE {
        return;
      }
      var kind, length := rest[0], GetU32(rest[1..5]);
      var payload := [];
      if length > 0 {
        if |rest| < HEADER_SIZE + length {
          return;
        }
        payload := rest[5..5 + length];
      }
      assert Take(rest) == Took(Frame(kind, payload), rest[5 + length..]);
      seen, rest := seen + [Frame(kind, payload)], rest[5 + length..];
    }
  }

  /** The client accepts the answer exactly when the stream starts with an Auth Response that
      carries the one byte 0x00. */
  lemma AcceptsExactly(stream: seq<byte>)
    ensures ReadAuthResponse(stream).Accepted? <==>
            Encode(Frame(AUTH_RESPONSE, [0])) <= stream
  {
    var want := Encode(Frame(AUTH_RESPONSE, [0]));
    assert PutU32(1) == [0, 0, 0, 1];
    assert want == [AUTH_RESPONSE, 0, 0, 0, 1, 0];
    if ReadAuthResponse(stream).Accepted? {
      U32Unique(stream[1..5]);
      assert stream[..6] == [stream[0]] + stream[1..5] + [stream[5]];
      assert stream[..6] == want;
    }
  }
}
