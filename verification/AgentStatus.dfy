/** The online/offline machine of the agents table, with a clock: handshakes and activity reports set
    an agent online, a periodic sweep sets idle agents offline. */
module AgentStatus {
  import opened Shared

  const TEN_MINUTES: int := 10 * 60 * 1000

  // lastActive is None for SQL NULL.
  datatype Row = Row(online: bool, lastActive: Option<int>)

  // lastSweep: when the sweep last ran, or the start.
  datatype State = State(rows: map<AgentId, Row>, now: int, lastSweep: int)

  datatype Action =
    | Create(id: AgentId)
    | Delete(id: AgentId)
    | Handshake(id: AgentId)
    | ReportActive(id: AgentId)   // updateLastActive
    | Sweep
    | Tick(d: nat)

  // UPDATE ... WHERE agent_id = id: no row, no effect.
  function Touch(s: State, id: AgentId): State {
    if id in s.rows then s.(rows := s.rows[id := Row(true, Some(s.now))]) else s
  }

  // last_active < NOW() - 10 minutes; a comparison with NULL is not true.
  predicate Expired(r: Row, now: int) {
    r.online && r.lastActive.Some? && r.lastActive.value < now - TEN_MINUTES
  }

  function Swept(r: Row, now: int): Row {
    if Expired(r, now) then r.(online := false) else r
  }

  function Do(s: State, a: Action): State {
    match a
    case Create(id) => if id in s.rows then s else s.(rows := s.rows[id := Row(false, None)])
    case Delete(id) => s.(rows := s.rows - {id})
    case Handshake(id) => Touch(s, id)
    case ReportActive(id) => Touch(s, id)
    case Sweep => s.(rows := (map id | id in s.rows :: Swept(s.rows[id], s.now)), lastSweep := s.now)
    case Tick(d) => s.(now := s.now + d)
  }

  function Run(start: int, actions: seq<Action>): State {
    if actions == [] then State(map[], start, start)
    else Do(Run(start, actions[..|actions| - 1]), actions[|actions| - 1])
  }

  // Online: idle for at most ten minutes beyond the time since the last sweep.
  // Offline: never active, or idle for more than ten minutes.
  ghost predicate RowOk(r: Row, now: int, lastSweep: int) {
    && (r.lastActive.Some? ==> r.lastActive.value <= now)
    && (r.online ==> r.lastActive.Some? && now - r.lastActive.value <= 600_000 + (now - lastSweep))
    && (!r.online ==> r.lastActive.None? || now - r.lastActive.value > 600_000)
  }

  ghost predicate Inv(s: State) {
    s.lastSweep <= s.now && forall id :: id in s.rows ==> RowOk(s.rows[id], s.now, s.lastSweep)
  }

  /** In every reachable state the status is right on both sides, over any order of handshakes,
      activity reports, sweeps and clock ticks. */
  lemma {:induction false} StatusIsTimely(start: int, actions: seq<Action>)
    ensures Inv(Run(start, actions))
  {
    if actions != [] {
      StatusIsTimely(start, actions[..|actions| - 1]);
    }
  }

  // ---- The table, from the history alone ----

  function ClockAfter(start: int, actions: seq<Action>): int {
    if actions == [] then start
    else
      ClockAfter(start, actions[..|actions| - 1]) +
      match actions[|actions| - 1] { case Tick(d) => d case _ => 0 }
  }

  // Created, and not deleted since.
  predicate Known(actions: seq<Action>, id: AgentId) {
    actions != [] &&
    var last := actions[|actions| - 1];
    last == Create(id) || (last != Delete(id) && Known(actions[..|actions| - 1], id))
  }

  // When a known agent last shook hands or was reported active.
  function LastSeen(start: int, actions: seq<Action>, id: AgentId): Option<int> {
    if actions == [] then None
    else
      var init, last := actions[..|actions| - 1], actions[|actions| - 1];
      if !Known(actions, id) then None
      else if last == Handshake(id) || last == ReportActive(id) then Some(ClockAfter(start, init))
      else LastSeen(start, init, id)
  }

  /** In every run, the table holds exactly the agents that were created and not deleted, each with the
      time it last shook hands or was reported active; with the two-sided bound, an agent is online from
      that moment on until a sweep finds it idle. */
  lemma {:induction false} RowsAreTheHistory(start: int, actions: seq<Action>, id: AgentId)
    ensures var s := Run(start, actions);
            && s.now == ClockAfter(start, actions)
            && (id in s.rows <==> Known(actions, id))
            && (id in s.rows ==> s.rows[id].lastActive == LastSeen(start, actions, id))
  {
    if actions != [] {
      RowsAreTheHistory(start, actions[..|actions| - 1], id);
      UnknownWasNotSeen(start, actions[..|actions| - 1], id);
    }
  }

  lemma UnknownWasNotSeen(start: int, actions: seq<Action>, id: AgentId)
    ensures !Known(actions, id) ==> LastSeen(start, actions, id).None?
  {
  }

  /** Right after a sweep the status is exact: online means active within the last ten minutes. */
  lemma SweepIsExact(start: int, actions: seq<Action>, id: AgentId)
    requires id in Run(start, actions + [Sweep]).rows
    ensures var s := Run(start, actions + [Sweep]);
            s.rows[id].online <==>
              s.rows[id].lastActive.Some? && s.now - s.rows[id].lastActive.value <= 600_000
  {
    assert (actions + [Sweep])[..|actions|] == actions;
    StatusIsTimely(start, actions);
  }

  /** If sweeps are never more than a minute apart, an online agent was active within eleven minutes. */
  lemma PunctualSweepsBoundIdleness(start: int, actions: seq<Action>, id: AgentId)
    requires var s := Run(start, actions); id in s.rows && s.rows[id].online && s.now - s.lastSweep <= 60_000
    ensures var s := Run(start, actions);
            s.rows[id].lastActive.Some? && s.now - s.rows[id].lastActive.value <= 660_000
  {
    StatusIsTimely(start, actions);
  }

  /** The agents table as the handlers update it. */
  class AgentTable {
    var rows: map<AgentId, Row>

    constructor ()
      ensures rows == map[]
    {
      rows := map[];
    }

    method SetActive(id: AgentId, now: int)
      modifies this
      ensures rows == Touch(State(old(rows), now, now), id).rows
    {
      if id in rows {
        rows := rows[id := Row(true, Some(now))];
      }
    }

    /** The sweep: one UPDATE, and the ids it changed for the dashboards. */
    method SweepIdle(now: int, lastSweep: int) returns (gone: set<AgentId>)
      modifies this
      ensures rows == Do(State(old(rows), now, lastSweep), Sweep).rows
      ensures gone == set id | id in old(rows) && old(rows)[id] != rows[id]
    {
      gone := set id | id in rows && Expired(rows[id], now);
      rows := map id | id in rows :: Swept(rows[id], now);
    }
  }
}
