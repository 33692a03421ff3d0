/** What every run of the agent's link keeps besides its bytes: whose batch each frame carries, which
    connection is the current one, and that a failed one does not stay current. */
module AgentRuns {
  import opened Shared
  import opened Frames
  import opened AgentLink

  // ---- Whose batch a frame carries ----

  // The jobs of all goroutines, in the order they were started.
  function JobsOf(actions: seq<Action>): seq<Job> {
    if actions == [] then []
    else
      JobsOf(actions[..|actions| - 1]) +
      match actions[|actions| - 1] { case Start(job) => [job] case _ => [] }
  }

  // A batch goes out as one Data frame with all its bytes, a heartbeat as an empty Ping.
  predicate Carries(f: Frame, job: Job) {
    match job
    case Batch(data) => f == Frame(DATA, data)
    case Heartbeat => f == Frame(PING, [])
  }

  ghost predicate OrderOk(l: Link, conn: Conn) {
    && |conn.lockers| == |conn.order|
    && forall i :: 0 <= i < |conn.order| ==>
         conn.lockers[i] < |l.threads| && Carries(conn.order[i], l.threads[conn.lockers[i]].job)
  }

  // A goroutine that is writing, or is done, has had its turn.
  ghost predicate TurnOk(l: Link, t: nat)
    requires t < |l.threads|
  {
    var g := l.threads[t];
    && (g.pc.InLock? || g.pc.HeaderSent? || g.pc.Written? ==> g.pc.c < |l.conns| && t in l.conns[g.pc.c].lockers)
    && (g.pc.Finished? ==> g.job.Batch? && exists c :: 0 <= c < |l.conns| && t in l.conns[c].lockers)
  }

  ghost predicate TurnsOk(l: Link) {
    && (forall c :: 0 <= c < |l.conns| ==> OrderOk(l, l.conns[c]))
    && (forall t :: 0 <= t < |l.threads| ==> TurnOk(l, t))
  }

  // Goroutines keep their jobs and connections their lockers.
  lemma StepKeepsJobs(l: Link, a: Action)
    requires WellIndexed(l) && Enabled(l, a)
    ensures var n := Do(l, a);
            && (forall t :: 0 <= t < |l.threads| ==> t < |n.threads| && n.threads[t].job == l.threads[t].job)
            && |n.threads| == |l.threads| + (if a.Start? then 1 else 0)
            && (a.Start? ==> n.threads[|l.threads|] == Goroutine(a.job, Outside))
            && |n.conns| == |l.conns| + (if a.Dial? then 1 else 0)
            && forall c :: 0 <= c < |l.conns| ==> l.conns[c].lockers <= n.conns[c].lockers
  {
    hide FrameOf, Header, AuthPart, ReadAuthResponse;
  }

  lemma StepKeepsOrder(l: Link, a: Action, c: nat)
    requires WellIndexed(l) && Enabled(l, a) && c < |Do(l, a).conns|
    requires c < |l.conns| ==> OrderOk(l, l.conns[c])
    ensures OrderOk(Do(l, a), Do(l, a).conns[c])
  {
    hide Header, AuthPart, ReadAuthResponse;
    StepKeepsJobs(l, a);
  }

  // Only the goroutine that acts moves.
  lemma OthersStand(l: Link, a: Action, t: nat)
    requires WellIndexed(l) && Enabled(l, a) && t < |l.threads|
    requires a.Start? || a.CloseCurrent? || a.t != t
    ensures t < |Do(l, a).threads| && Do(l, a).threads[t] == l.threads[t]
  {
    hide FrameOf, Header, AuthPart, ReadAuthResponse;
  }

  // The goroutine that acts: it writes, and returns, only after it had its turn.
  lemma ActorKeepsTurn(l: Link, a: Action)
    requires WellIndexed(l) && Enabled(l, a) && !a.Start? && !a.CloseCurrent? && a.t < |l.threads|
    requires TurnOk(l, a.t) && (l.threads[a.t].pc.Written? ==> l.threads[a.t].pc.c < |l.conns|)
    ensures a.t < |Do(l, a).threads| && TurnOk(Do(l, a), a.t)
  {
    hide FrameOf, Header, AuthPart, ReadAuthResponse;
    var n, pc := Do(l, a), l.threads[a.t].pc;
    if n.threads[a.t].pc.Finished? {
      assert a.t in n.conns[pc.c].lockers;
    }
  }

  lemma StepKeepsTurn(l: Link, a: Action, t: nat)
    requires WellIndexed(l) && Enabled(l, a) && t < |Do(l, a).threads|
    requires t < |l.threads| ==> TurnOk(l, t)
    requires t < |l.threads| && l.threads[t].pc.Written? ==> l.threads[t].pc.c < |l.conns|
    ensures TurnOk(Do(l, a), t)
  {
    StepKeepsJobs(l, a);
    var n := Do(l, a);
    hide Do, Enabled;
    if t < |l.threads| {
      if a.Start? || a.CloseCurrent? || a.t != t {
        OthersStand(l, a, t);
        if l.threads[t].pc.Finished? {
          var c :| 0 <= c < |l.conns| && t in l.conns[c].lockers;
          assert t in n.conns[c].lockers;
        }
      } else {
        ActorKeepsTurn(l, a);
      }
    }
  }

  lemma {:induction false} ReachableTurns(actions: seq<Action>)
    ensures TurnsOk(Run(actions))
  {
    hide Do, OrderOk, TurnOk, Enabled, Inv, WellIndexed;
    if actions != [] {
      var l, a := Run(actions[..|actions| - 1]), actions[|actions| - 1];
      ReachableTurns(actions[..|actions| - 1]);
      if Enabled(l, a) {
        forall c | 0 <= c < |Do(l, a).conns| ensures OrderOk(Do(l, a), Do(l, a).conns[c]) {
          StepKeepsOrder(l, a, c);
        }
        forall t | 0 <= t < |Do(l, a).threads| ensures TurnOk(Do(l, a), t) {
          WrittenIsIndexed(l);
          StepKeepsTurn(l, a, t);
        }
      }
    }
  }

  lemma WrittenIsIndexed(l: Link)
    requires WellIndexed(l)
    ensures forall t :: 0 <= t < |l.threads| && l.threads[t].pc.Written? ==> l.threads[t].pc.c < |l.conns|
  {
  }

  lemma {:induction false} JobsAreStarted(actions: seq<Action>)
    ensures |Run(actions).threads| == |JobsOf(actions)|
    ensures forall t :: 0 <= t < |JobsOf(actions)| ==> Run(actions).threads[t].job == JobsOf(actions)[t]
  {
    hide Do, Inv, WellIndexed;
    if actions != [] {
      var l, a := Run(actions[..|actions| - 1]), actions[|actions| - 1];
      JobsAreStarted(actions[..|actions| - 1]);
      if Enabled(l, a) { StepKeepsJobs(l, a); }
    }
  }

  /** In every run, the i-th frame of a connection is the job of the goroutine that took writeMutex for
      it as the i-th: a Data frame with exactly the bytes its batch was started with, or an empty Ping
      for the heartbeat; and a sender that has returned has had its turn on some connection. */
  lemma FramesCarryTheirJobs(actions: seq<Action>, c: nat)
    requires c < |Run(actions).conns|
    ensures var conn, jobs := Run(actions).conns[c], JobsOf(actions);
            && |conn.lockers| == |conn.order|
            && forall i :: 0 <= i < |conn.order| ==>
                 conn.lockers[i] < |jobs| && Carries(conn.order[i], jobs[conn.lockers[i]])
    ensures forall t :: 0 <= t < |Run(actions).threads| && Run(actions).threads[t].pc.Finished? ==>
              exists d :: 0 <= d < |Run(actions).conns| && t in Run(actions).conns[d].lockers
  {
    hide Run, Carries;
    ReachableTurns(actions);
    JobsAreStarted(actions);
    assert OrderOk(Run(actions), Run(actions).conns[c]);
    forall t | 0 <= t < |Run(actions).threads| && Run(actions).threads[t].pc.Finished?
      ensures exists d :: 0 <= d < |Run(actions).conns| && t in Run(actions).conns[d].lockers
    {
      assert TurnOk(Run(actions), t);
    }
  }

  // ---- A batch that was written is not written again ----

  // The sender has written its whole batch, or has returned after that.
  predicate Succeeded(l: Link, t: nat) {
    t < |l.threads| && l.threads[t].job.Batch? &&
    (l.threads[t].pc.Finished? || (l.threads[t].pc.Written? && l.threads[t].pc.ok))
  }

  // How often a goroutine took writeMutex for a connection.
  function Turns(l: Link, c: nat, t: nat): nat {
    if c < |l.conns| then multiset(l.conns[c].lockers)[t] else 0
  }

  lemma StepKeepsSuccess(l: Link, a: Action, t: nat, c: nat)
    requires WellIndexed(l) && Enabled(l, a) && Succeeded(l, t)
    ensures Succeeded(Do(l, a), t) && Turns(Do(l, a), c, t) == Turns(l, c, t)
  {
    LockersGrow(l, a, c);
    if a.Start? || a.CloseCurrent? || a.t != t {
      OthersStand(l, a, t);
      hide Do;
    } else {
      SuccessOnlyUnlocks(l, a, t);
      hide Do;
    }
  }

  // A sender that has succeeded can do nothing but release the mutex and return.
  lemma SuccessOnlyUnlocks(l: Link, a: Action, t: nat)
    requires WellIndexed(l) && Enabled(l, a) && Succeeded(l, t) && !a.Start? && !a.CloseCurrent? && a.t == t
    ensures a.Unlock? && Succeeded(Do(l, a), t)
  {
    hide FrameOf, Header, AuthPart, ReadAuthResponse;
  }

  lemma LockersGrow(l: Link, a: Action, c: nat)
    requires WellIndexed(l) && Enabled(l, a)
    ensures var n := Do(l, a);
            && |l.conns| <= |n.conns|
            && (c < |l.conns| ==>
                  n.conns[c].lockers ==
                  l.conns[c].lockers + if a.Lock? && l.threads[a.t].pc.c == c then [a.t] else [])
            && (|l.conns| <= c < |n.conns| ==> n.conns[c].lockers == [])
  {
    hide FrameOf, Header, AuthPart, ReadAuthResponse;
    assert c < |l.conns| ==> l.conns[c].lockers + [] == l.conns[c].lockers;
  }

  /** In every run: once a sender has written its batch without an error, it never takes writeMutex
      again, on any connection; only a failed write is tried again. */
  lemma {:induction false} SuccessIsFinal(actions: seq<Action>, more: seq<Action>, t: nat, c: nat)
    requires Succeeded(Run(actions), t)
    ensures Succeeded(Run(actions + more), t)
    ensures Turns(Run(actions + more), c, t) == Turns(Run(actions), c, t)
    decreases |more|
  {
    hide Do, Inv, WellIndexed, Enabled, Succeeded, Turns;
    if more == [] {
      assert actions + more == actions;
    } else {
      var init := more[..|more| - 1];
      assert (actions + more)[..|actions + more| - 1] == actions + init;
      SuccessIsFinal(actions, init, t, c);
      var l, a := Run(actions + init), more[|more| - 1];
      if Enabled(l, a) { StepKeepsSuccess(l, a, t, c); }
    }
  }

  // ---- The current connection ----

  // A sender that has just failed on c, and will close the current connection.
  predicate FailedOn(pc: Pc, c: nat) {
    pc == Written(c, false) || pc.MustClose?
  }

  ghost predicate CurrentConn(l: Link, c: nat)
    requires c < |l.conns|
  {
    && (l.conns[c].published <==> ReadAuthResponse(l.conns[c].reply).Accepted?)
    && (l.tcpConn == Some(c) <==> l.conns[c].published && !l.conns[c].closed)
  }

  // A connection that is being dialed is open.
  ghost predicate DialingIsOpen(l: Link) {
    forall t :: 0 <= t < |l.threads| && l.threads[t].pc.Dialing? ==>
      l.threads[t].pc.c < |l.conns| && !l.conns[l.threads[t].pc.c].closed
  }

  ghost predicate CurrentOk(l: Link) {
    && (forall c :: 0 <= c < |l.conns| ==> CurrentConn(l, c))
    && (l.tcpConn.Some? ==> l.tcpConn.value < |l.conns|)
    && (l.connMutex.Some? ==> l.tcpConn.None?)
    && DialingIsOpen(l)
    && FailedIsLeft(l)
  }

  ghost predicate FailedIsLeft(l: Link) {
    l.tcpConn.Some? && l.tcpConn.value < |l.conns| && l.conns[l.tcpConn.value].failed ==>
      exists t :: 0 <= t < |l.threads| && FailedOn(l.threads[t].pc, l.tcpConn.value)
  }

  // The goroutine that is dialing is the only one, and its connection is new.
  lemma DialerIsAlone(l: Link, t: nat)
    requires Inv(l) && t < |l.threads| && l.threads[t].pc.Dialing?
    ensures var c := l.threads[t].pc.c;
            l.connMutex == Some(t) && c < |l.conns| && !l.conns[c].published && !l.conns[c].failed
    ensures forall u :: 0 <= u < |l.threads| && l.threads[u].pc.Dialing? ==> u == t
  {
    hide ConnOk, Encode, Header;
    assert ThreadOk(l, t);
    forall u | 0 <= u < |l.threads| && l.threads[u].pc.Dialing? ensures u == t { assert ThreadOk(l, u); }
  }

  lemma StepKeepsCurrentConn(l: Link, a: Action, c: nat)
    requires Inv(l) && WellIndexed(l) && Enabled(l, a) && CurrentOk(l) && c < |Do(l, a).conns|
    ensures CurrentConn(Do(l, a), c)
  {
    hide ConnOk, ThreadOk, FrameOf, Header, AuthPart, ReadAuthResponse, Encode, FailedIsLeft;
    assert ReadAuthResponse([]) == Cut by { NothingRead(); }
    assert c < |l.conns| ==> CurrentConn(l, c);
    if a.AuthWrite? || a.AuthWriteFails? || a.AuthAnswer? { DialerIsAlone(l, a.t); }
  }

  lemma StepKeepsDialing(l: Link, a: Action)
    requires Inv(l) && WellIndexed(l) && Enabled(l, a) && CurrentOk(l)
    ensures DialingIsOpen(Do(l, a))
  {
    hide ConnOk, ThreadOk, FrameOf, Header, AuthPart, ReadAuthResponse, Encode, FailedIsLeft, CurrentConn;
    if a.AuthWrite? || a.AuthWriteFails? || a.AuthAnswer? { DialerIsAlone(l, a.t); }
    if a.CloseAfterFailure? || a.CloseCurrent? { NobodyDials(l); }
  }

  lemma StepKeepsLocks(l: Link, a: Action)
    requires Inv(l) && WellIndexed(l) && Enabled(l, a) && CurrentOk(l)
    ensures Do(l, a).connMutex.Some? ==> Do(l, a).tcpConn.None?
    ensures Do(l, a).tcpConn.Some? ==> Do(l, a).tcpConn.value < |Do(l, a).conns|
  {
    hide ConnOk, ThreadOk, FrameOf, Header, AuthPart, ReadAuthResponse, Encode;
    hide FailedIsLeft, CurrentConn, DialingIsOpen;
    if a.AuthWrite? || a.AuthWriteFails? || a.AuthAnswer? { DialerIsAlone(l, a.t); }
  }

  lemma NobodyDials(l: Link)
    requires Inv(l) && l.connMutex.None?
    ensures forall t :: 0 <= t < |l.threads| ==> !l.threads[t].pc.Dialing?
  {
    hide ConnOk;
    forall t | 0 <= t < |l.threads| ensures !l.threads[t].pc.Dialing? { assert ThreadOk(l, t); }
  }

  lemma StepKeepsFailedLeft(l: Link, a: Action)
    requires Inv(l) && WellIndexed(l) && Enabled(l, a) && CurrentOk(l)
    ensures FailedIsLeft(Do(l, a))
  {
    hide ConnOk, ThreadOk, FrameOf, Header, AuthPart, ReadAuthResponse, Encode, DialingIsOpen;
    var n := Do(l, a);
    if a.AuthWrite? || a.AuthWriteFails? || a.AuthAnswer? { DialerIsAlone(l, a.t); }
    if n.tcpConn.Some? && n.tcpConn.value < |n.conns| && n.conns[n.tcpConn.value].failed {
      if a.WriteFails? && l.threads[a.t].pc.c == n.tcpConn.value {
        assert FailedOn(n.threads[a.t].pc, n.tcpConn.value);
      } else {
        var t :| 0 <= t < |l.threads| && FailedOn(l.threads[t].pc, l.tcpConn.value);
        assert FailedOn(n.threads[t].pc, n.tcpConn.value);
      }
    }
  }

  lemma StepKeepsCurrent(l: Link, a: Action)
    requires Inv(l) && WellIndexed(l) && Enabled(l, a) && CurrentOk(l)
    ensures CurrentOk(Do(l, a))
  {
    hide Do, CurrentConn, DialingIsOpen, FailedIsLeft, Inv;
    forall c | 0 <= c < |Do(l, a).conns| ensures CurrentConn(Do(l, a), c) { StepKeepsCurrentConn(l, a, c); }
    StepKeepsDialing(l, a);
    StepKeepsLocks(l, a);
    StepKeepsFailedLeft(l, a);
  }

  lemma NothingRead()
    ensures ReadAuthResponse([]) == Cut
  {
  }

  /** In every run: a connection is published exactly if a 0x00 answer was read on it; it is the
      current one exactly while it is published and not closed, so there is never a second; and a
      connection on which a write failed is current only until the sender that failed has closed it. */
  lemma {:induction false} CurrentIsTheOpenOne(actions: seq<Action>)
    ensures CurrentOk(Run(actions))
  {
    hide Do, Inv, WellIndexed, Enabled, CurrentOk;
    if actions == [] {
      NoCurrent();
    } else {
      var l, a := Run(actions[..|actions| - 1]), actions[|actions| - 1];
      CurrentIsTheOpenOne(actions[..|actions| - 1]);
      if Enabled(l, a) { StepKeepsCurrent(l, a); }
    }
  }

  lemma NoCurrent()
    ensures CurrentOk(AgentLink.INITIAL)
  {
  }

  /** A connection authenticates with the token it was dialed with. */
  lemma {:induction false} TokensAreDialed(actions: seq<Action>, c: nat)
    requires c < |Run(actions).conns|
    ensures exists k :: 0 <= k < |actions| && actions[k].Dial? && actions[k].token == Run(actions).conns[c].token
  {
    hide Do, Inv, WellIndexed, Enabled;
    var init, a := actions[..|actions| - 1], actions[|actions| - 1];
    var l := Run(init);
    if Enabled(l, a) {
      StepKeepsJobs(l, a);
      StepKeepsTokens(l, a);
    }
    if c < |l.conns| {
      TokensAreDialed(init, c);
      var k :| 0 <= k < |init| && init[k].Dial? && init[k].token == l.conns[c].token;
      assert actions[k] == init[k];
    } else {
      assert actions[|actions| - 1].Dial?;
    }
  }

  lemma StepKeepsTokens(l: Link, a: Action)
    requires WellIndexed(l) && Enabled(l, a)
    ensures var n := Do(l, a);
            && |l.conns| <= |n.conns|
            && (forall c :: 0 <= c < |l.conns| ==> n.conns[c].token == l.conns[c].token)
            && (a.Dial? ==> n.conns[|l.conns|].token == a.token)
  {
    hide FrameOf, Header, AuthPart, ReadAuthResponse;
  }
}
