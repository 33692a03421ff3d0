/** The events the file monitor sends are a complete log of its baseline, and the walk as a method. */
module FimBaseline {
  import opened Shared
  import opened Frames
  import opened FileMonitor

  // ---- Replaying events ----

  // An event carries everything the baseline stores of a file.
  function MetaOf(a: Attributes): Meta {
    Meta(a.size, a.timestamp, a.uid, a.gid, a.mode, a.inode, if a.hash.Some? then a.hash.value else "")
  }

  function Replay(b: Baseline, e: FimEvent): Baseline {
    if e.kind.Deleted? then b - {e.file}
    else if e.attributes.Some? then b[e.file := MetaOf(e.attributes.value)]
    else b
  }

  function ReplayAll(b: Baseline, events: seq<FimEvent>): Baseline {
    if events == [] then b else Replay(ReplayAll(b, events[..|events| - 1]), events[|events| - 1])
  }

  function ChangedFrom<T(==)>(was: T, now: T): Option<T> {
    if was == now then None else Some(was)
  }

  // What an event may say about the past: the old values of a modified file that differ from the
  // new ones, as the baseline had them; a missing old hash is never reported.
  ghost predicate TellsThePast(b: Baseline, e: FimEvent) {
    if e.kind.Modified? && e.attributes.Some? && e.file in b then
      var was, now := b[e.file], MetaOf(e.attributes.value);
      && e.oldHash == (if was.hash == "" then None else ChangedFrom(was.hash, now.hash))
      && e.oldMode == ChangedFrom(was.mode, now.mode)
      && e.oldUid == ChangedFrom(was.uid, now.uid)
      && e.oldGid == ChangedFrom(was.gid, now.gid)
    else
      e.oldHash.None? && e.oldMode.None? && e.oldUid.None? && e.oldGid.None?
  }

  function Events(visits: seq<Visit>): seq<FimEvent> {
    if visits == [] then []
    else
      var last := visits[|visits| - 1].event;
      Events(visits[..|visits| - 1]) + if last.Some? then [last.value] else []
  }

  ghost predicate Sourced(start: Baseline, s: State) {
    && s.baseline == ReplayAll(start, Events(s.visits))
    && forall i :: 0 <= i < |Events(s.visits)| ==>
         TellsThePast(ReplayAll(start, Events(s.visits)[..i]), Events(s.visits)[i])
  }

  lemma ProcessIsReplayed(b: Baseline, file: string, kind: Kind, meta: Option<Meta>)
    ensures var p := Process(b, file, kind, meta);
            p.baseline == Replay(b, p.event) && TellsThePast(b, p.event)
  {
  }

  lemma EventsSnoc(visits: seq<Visit>, v: Visit)
    ensures Events(visits + [v]) == Events(visits) + if v.event.Some? then [v.event.value] else []
  {
    assert (visits + [v])[..|visits|] == visits;
  }

  lemma LogGrows(start: Baseline, events: seq<FimEvent>, e: FimEvent, b: Baseline)
    requires b == ReplayAll(start, events) && TellsThePast(b, e)
    requires forall i :: 0 <= i < |events| ==> TellsThePast(ReplayAll(start, events[..i]), events[i])
    ensures ReplayAll(start, events + [e]) == Replay(b, e)
    ensures forall i :: 0 <= i < |events| + 1 ==> TellsThePast(ReplayAll(start, (events + [e])[..i]), (events + [e])[i])
  {
    hide TellsThePast, Replay;
    assert (events + [e])[..|events|] == events;
    forall i | 0 <= i < |events| + 1
      ensures TellsThePast(ReplayAll(start, (events + [e])[..i]), (events + [e])[i])
    {
      if i < |events| { assert (events + [e])[..i] == events[..i]; }
    }
  }

  // What a step does to the baseline and the log.
  lemma StepLogs(s: State, env: Env)
    requires RecordFits(s.buf, s.offset)
    ensures var n := Step(s, env);
            || (n.baseline == s.baseline && (n.visits == s.visits || n.visits == s.visits + [Visit(s.offset, None)]))
            || (exists file, kind ::
                  var p := Process(s.baseline, file, kind, env.meta);
                  n.baseline == p.baseline && n.visits == s.visits + [Visit(s.offset, Some(p.event))])
  {
    hide RecordAt, Classify, IsNoise, Process;
    var n := Step(s, env);
    if Subject(s).Some? {
      var (file, kind) := Subject(s).value;
      var p := Process(s.baseline, file, kind, env.meta);
      assert n.visits == s.visits || n.visits == s.visits + [Visit(s.offset, Some(p.event))];
    }
  }

  lemma StepKeepsSourced(start: Baseline, s: State, env: Env)
    requires Sourced(start, s) && RecordFits(s.buf, s.offset)
    ensures Sourced(start, Step(s, env))
  {
    hide Step, Process, TellsThePast, RecordFits;
    StepLogs(s, env);
    var n := Step(s, env);
    if n.baseline == s.baseline && (n.visits == s.visits || n.visits == s.visits + [Visit(s.offset, None)]) {
      EventsSnoc(s.visits, Visit(s.offset, None));
      assert Events(s.visits) + [] == Events(s.visits);
    } else {
      var file, kind :|
        var p := Process(s.baseline, file, kind, env.meta);
        n.baseline == p.baseline && n.visits == s.visits + [Visit(s.offset, Some(p.event))];
      var p := Process(s.baseline, file, kind, env.meta);
      ProcessIsReplayed(s.baseline, file, kind, env.meta);
      EventsSnoc(s.visits, Visit(s.offset, Some(p.event)));
      LogGrows(start, Events(s.visits), p.event, s.baseline);
    }
  }

  // ---- Runs over many buffers ----

  datatype Turn = Read(buf: seq<byte>) | Pass(env: Env)

  // A read happens when the last buffer is used up.
  function Do(s: State, t: Turn): State {
    match t
    case Read(buf) => if s.offset >= |s.buf| then s.(buf := buf, offset := 0) else s
    case Pass(env) => if RecordFits(s.buf, s.offset) then Step(s, env) else s
  }

  function Run(start: Baseline, watches: map<nat, string>, turns: seq<Turn>): State {
    if turns == [] then State([], 0, watches, map[], start, [])
    else Do(Run(start, watches, turns[..|turns| - 1]), turns[|turns| - 1])
  }

  /** The baseline is event-sourced: in every run, replaying the events sent so far over the initial
      baseline gives the collector's baseline, and each event reports exactly the old hash, mode and
      owner the replayed baseline held just before it, where they changed. */
  lemma {:induction false} BaselineIsEventSourced(start: Baseline, watches: map<nat, string>, turns: seq<Turn>)
    ensures Sourced(start, Run(start, watches, turns))
  {
    hide Step, Process, TellsThePast;
    if turns == [] {
      assert Events([]) == [];
    } else {
      var s, t := Run(start, watches, turns[..|turns| - 1]), turns[|turns| - 1];
      BaselineIsEventSourced(start, watches, turns[..|turns| - 1]);
      if t.Pass? && RecordFits(s.buf, s.offset) { StepKeepsSourced(start, s, t.env); }
    }
  }

  // ---- What an event says of its record, and the baseline of the files ----

  // The path of a record: its name in the directory that is watched.
  ghost predicate NamesFile(file: string, dir: string, name: string) {
    if name == "" then file == dir
    else if dir == "/" then file == "/" + name
    else file == dir + "/" + name
  }

  // Everything the event reports of the file is what was read of it.
  predicate Shows(a: Attributes, m: Meta) {
    && a.size == m.size && a.timestamp == m.mtime && a.uid == m.uid && a.gid == m.gid
    && a.mode == m.mode && a.inode == m.inode
    && (if m.hash == "" then a.hash.None? else a.hash == Some(m.hash))
  }

  // The event sent by one pass, if any, against the record and the file.
  ghost predicate TellsRecord(s: State, env: Env, n: State, event: Option<FimEvent>)
    requires RecordFits(s.buf, s.offset)
  {
    var r := RecordAt(s.buf, s.offset);
    if event.None? then n.baseline == s.baseline
    else
      var e := event.value;
      && r.wd in s.watches && NamesFile(e.file, s.watches[r.wd], r.name) && KindOfMask(r.mask) == Some(e.kind)
      && if e.kind.Deleted? then e.attributes.None? && n.baseline == s.baseline - {e.file}
         else if env.meta.None? then e.attributes.None? && n.baseline == s.baseline
         else
           && e.attributes.Some? && Shows(e.attributes.value, env.meta.value)
           && n.baseline == s.baseline[e.file := env.meta.value]
  }

  lemma ProcessTells(b: Baseline, file: string, kind: Kind, meta: Option<Meta>)
    ensures var p := Process(b, file, kind, meta);
            && p.event.file == file && p.event.kind == kind
            && if kind.Deleted? then p.event.attributes.None? && p.baseline == b - {file}
               else if meta.None? then p.event.attributes.None? && p.baseline == b
               else
                 && p.event.attributes.Some? && Shows(p.event.attributes.value, meta.value)
                 && p.baseline == b[file := meta.value]
  {
  }

  /** Every pass of the loop, in any state: an event names the file of its record and its kind by the
      record's mask, and shows the file's metadata as they were read, which are stored whole; a delete
      takes the file out; what cannot be read changes nothing. A directory that appears is watched under
      its own path; nothing else changes the watches. */
  lemma StepTellsRecord(s: State, env: Env) returns (event: Option<FimEvent>)
    requires RecordFits(s.buf, s.offset)
    ensures var n := Step(s, env); var r := RecordAt(s.buf, s.offset);
            && (n.visits == s.visits || n.visits == s.visits + [Visit(s.offset, event)])
            && (event.Some? ==> n.visits == s.visits + [Visit(s.offset, event)])
            && TellsRecord(s, env, n, event)
            && if r.wd in s.watches && KindOfMask(r.mask) == Some(Added) && env.watch.Some? then
                 exists path :: NamesFile(path, s.watches[r.wd], r.name)
                                && n.watches == s.watches[env.watch.value := path]
               else n.watches == s.watches
  {
    hide RecordAt, RecordFits, Classify, IsNoise, Process, KindOfMask;
    var r := RecordAt(s.buf, s.offset);
    ClassifyMeans(r.mask);
    event := None;
    if Subject(s).Some? {
      var (path, kind) := Subject(s).value;
      assert NamesFile(path, s.watches[r.wd], r.name);
      if !IsNoise(path) && !Debounced(s, path, env.now) {
        event := Some(Process(s.baseline, path, kind, env.meta).event);
        ProcessTells(s.baseline, path, kind, env.meta);
      }
    }
  }

  // What was read last of a path by a pass that reported it; nothing after a delete.
  function LastRead(start: Baseline, watches: map<nat, string>, turns: seq<Turn>, path: string): Option<Meta> {
    if turns == [] then Lookup(start, path)
    else
      var init, t := turns[..|turns| - 1], turns[|turns| - 1];
      var s := Run(start, watches, init);
      var before, after := Events(s.visits), Events(Run(start, watches, turns).visits);
      var earlier := LastRead(start, watches, init, path);
      if t.Pass? && RecordFits(s.buf, s.offset) && |after| > |before| && after[|before|].file == path then
        if KindOfMask(RecordAt(s.buf, s.offset).mask) == Some(Deleted) then None
        else if t.env.meta.Some? then t.env.meta
        else earlier
      else earlier
  }

  /** The baseline against the files: in every run, for every path, it holds exactly the metadata that
      were read when the path was last reported and could be read, whole; the start entry if it never
      was; and nothing after a delete. */
  lemma {:induction false} BaselineIsLastRead(
    start: Baseline, watches: map<nat, string>, turns: seq<Turn>, path: string)
    ensures Lookup(Run(start, watches, turns).baseline, path) == LastRead(start, watches, turns, path)
  {
    hide Step, RecordAt, RecordFits, Events, KindOfMask, NamesFile, Shows;
    if turns != [] {
      var init, t := turns[..|turns| - 1], turns[|turns| - 1];
      var s := Run(start, watches, init);
      BaselineIsLastRead(start, watches, init, path);
      if t.Pass? && RecordFits(s.buf, s.offset) {
        var event := StepTellsRecord(s, t.env);
        EventsSnoc(s.visits, Visit(s.offset, event));
        assert Events(s.visits) + [] == Events(s.visits);
      }
    }
  }

  // ---- Debouncing ----

  // The time a turn adds to the times of one path.
  function Noted(s: State, t: Turn, path: string): seq<int> {
    var before, after := Events(s.visits), Events(Do(s, t).visits);
    if t.Pass? && |after| > |before| && after[|before|].file == path then [t.env.now] else []
  }

  // The times at which events of one path were sent.
  function TimesOf(start: Baseline, watches: map<nat, string>, turns: seq<Turn>, path: string): seq<int> {
    if turns == [] then []
    else
      var init := turns[..|turns| - 1];
      TimesOf(start, watches, init, path) + Noted(Run(start, watches, init), turns[|turns| - 1], path)
  }

  // The record at the offset is one that reports `path`, and no noise.
  predicate Reports(s: State, path: string) {
    RecordFits(s.buf, s.offset) && Subject(s).Some? && Subject(s).value.0 == path && !IsNoise(path)
  }

  predicate Spaced(times: seq<int>) {
    forall i :: 0 < i < |times| ==> times[i] - times[i - 1] >= 500
  }

  // Either the event of the reported path is sent and its time noted, or neither.
  lemma StepSends(s: State, env: Env) returns (event: Option<FimEvent>)
    requires RecordFits(s.buf, s.offset)
    ensures var n := Step(s, env);
            if event.Some? then
              && Reports(s, event.value.file) && !Debounced(s, event.value.file, env.now)
              && n.lastEvent == s.lastEvent[event.value.file := env.now]
              && n.visits == s.visits + [Visit(s.offset, event)]
            else
              && (Subject(s).Some? && !IsNoise(Subject(s).value.0) ==> Debounced(s, Subject(s).value.0, env.now))
              && n.lastEvent == s.lastEvent
              && (n.visits == s.visits || n.visits == s.visits + [Visit(s.offset, None)])
  {
    hide RecordAt, RecordFits, Classify, IsNoise, PathOf, Process;
    event := None;
    if Subject(s).Some? && !IsNoise(Subject(s).value.0) && !Debounced(s, Subject(s).value.0, env.now) {
      var (path, kind) := Subject(s).value;
      event := Some(Process(s.baseline, path, kind, env.meta).event);
      EventNamesFile(s.baseline, path, kind, env.meta);
    }
  }

  lemma EventNamesFile(b: Baseline, file: string, kind: Kind, meta: Option<Meta>)
    ensures Process(b, file, kind, meta).event.file == file
  {
  }

  // An event is sent, and its time noted, exactly when the record is reported and not debounced.
  lemma StepNotesTime(s: State, env: Env, path: string)
    requires RecordFits(s.buf, s.offset)
    ensures var n := Step(s, env); var before, after := Events(s.visits), Events(n.visits);
            if Reports(s, path) && !Debounced(s, path, env.now) then
              n.lastEvent == s.lastEvent[path := env.now] && |after| == |before| + 1 && after[|before|].file == path
            else
              && (path in n.lastEvent <==> path in s.lastEvent)
              && (path in s.lastEvent ==> n.lastEvent[path] == s.lastEvent[path])
              && (|after| > |before| ==> after[|before|].file != path)
              && (Reports(s, path) ==> after == before)
  {
    hide Step, RecordAt, RecordFits, Subject, IsNoise, Events, Debounced;
    var event := StepSends(s, env);
    EventsSnoc(s.visits, Visit(s.offset, event));
    assert Events(s.visits) + [] == Events(s.visits);
  }

  // What is known of the times of one path after a run.
  ghost predicate TimesKnown(s: State, times: seq<int>, path: string) {
    && Spaced(times)
    && (path in s.lastEvent <==> times != [])
    && (times != [] ==> s.lastEvent[path] == times[|times| - 1])
  }

  lemma TurnKeepsTimes(s: State, t: Turn, times: seq<int>, path: string)
    requires TimesKnown(s, times, path)
    ensures TimesKnown(Do(s, t), times + Noted(s, t, path), path)
  {
    hide Step, RecordAt, RecordFits, Events, Reports;
    assert times + [] == times;
    if t.Pass? && RecordFits(s.buf, s.offset) {
      StepNotesTime(s, t.env, path);
    }
  }

  lemma {:induction false} TimesAreKnown(start: Baseline, watches: map<nat, string>, turns: seq<Turn>, path: string)
    ensures TimesKnown(Run(start, watches, turns), TimesOf(start, watches, turns, path), path)
  {
    hide Do, Noted;
    if turns != [] {
      var init, t := turns[..|turns| - 1], turns[|turns| - 1];
      TimesAreKnown(start, watches, init, path);
      TurnKeepsTimes(Run(start, watches, init), t, TimesOf(start, watches, init, path), path);
    }
  }

  /** Debouncing, exactly: in every run, two events of one path are at least 500 ms apart, and when
      the walk stands at a quiet record of a path, its event is sent exactly if none of that path
      was sent in the last 500 ms. */
  lemma EventsAreDebounced(start: Baseline, watches: map<nat, string>, turns: seq<Turn>, path: string, env: Env)
    ensures var s := Run(start, watches, turns); var times := TimesOf(start, watches, turns, path);
            && Spaced(times)
            && (Reports(s, path) ==>
                  (|Events(Step(s, env).visits)| > |Events(s.visits)| <==>
                   times == [] || env.now - times[|times| - 1] >= 500))
  {
    hide Step, RecordAt, RecordFits, Events, Run, TimesOf;
    TimesAreKnown(start, watches, turns, path);
    var s := Run(start, watches, turns);
    if Reports(s, path) { StepNotesTime(s, env, path); }
  }

  // ---- The monitor ----

  class Monitor {
    var watchDescriptors: map<nat, string>
    var lastEvent: map<string, int>
    var baseline: Baseline
    ghost var visits: seq<Visit>
    var sent: seq<FimEvent>

    // Exactly the events of the visited records were sent.
    ghost predicate Valid()
      reads this
    {
      sent == Events(visits)
    }

    ghost function View(buf: seq<byte>, offset: nat): State
      reads this
    {
      State(buf, offset, watchDescriptors, lastEvent, baseline, visits)
    }

    constructor (start: Baseline, watches: map<nat, string>)
      ensures View([], 0) == Run(start, watches, []) && Valid()
    {
      watchDescriptors, lastEvent, baseline, visits, sent := watches, map[], start, [], [];
    }

    method ShouldProcess(path: string, now: int) returns (go: bool)
      modifies this`lastEvent
      ensures go <==> !(path in old(lastEvent) && now - old(lastEvent)[path] < DEBOUNCE)
      ensures lastEvent == if go then old(lastEvent)[path := now] else old(lastEvent)
    {
      if path in lastEvent {
        if now - lastEvent[path] < DEBOUNCE {
          return false;
        }
      }
      lastEvent := lastEvent[path := now];
      return true;
    }

    method Handle(path: string, kind: Kind, meta: Option<Meta>) returns (event: FimEvent)
      modifies this`baseline
      ensures var p := Process(old(baseline), path, kind, meta); baseline == p.baseline && event == p.event
    {
      event := Bare(path, kind);
      if kind.Deleted? {
        baseline := baseline - {path};
      } else if meta.Some? {
        var m := meta.value;
        event := event.(attributes := Some(Report(m)));
        if kind.Modified? && path in baseline {
          var o := baseline[path];
          if o.hash != "" && o.hash != m.hash { event := event.(oldHash := Some(o.hash)); }
          if o.mode != m.mode { event := event.(oldMode := Some(o.mode)); }
          if o.uid != m.uid { event := event.(oldUid := Some(o.uid)); }
          if o.gid != m.gid { event := event.(oldGid := Some(o.gid)); }
        }
        baseline := baseline[path := m];
      }
    }

    /** One pass through the loop body; answers the new offset. */
    method Visited(buf: seq<byte>, offset: nat, env: Env) returns (next: nat)
      requires Valid() && RecordFits(buf, offset)
      modifies this
      ensures Valid() && View(buf, next) == Step(old(View(buf, offset)), env)
    {
      hide Classify, IsNoise, Process, RecordFits, Events, PathOf;
      SizeIsPositive(buf, offset);
      hide RecordAt;
      var record := RecordAt(buf, offset);
      var kind := Classify(record.mask);
      next := offset + record.size;
      if record.wd in watchDescriptors && kind.Some? {
        var path := PathOf(watchDescriptors[record.wd], record.name);
        if kind.value.Added? && env.watch.Some? {
          watchDescriptors := watchDescriptors[env.watch.value := path];
        }
        if IsNoise(path) {
          return offset;
        }
        var go := ShouldProcess(path, env.now);
        if !go {
          return offset;
        }
        var event := Handle(path, kind.value, env.meta);
        sent := sent + [event];
        EventsSnoc(visits, Visit(offset, Some(event)));
        visits := visits + [Visit(offset, Some(event))];
      } else {
        EventsSnoc(visits, Visit(offset, None));
        visits := visits + [Visit(offset, None)];
        assert sent + [] == sent;
      }
    }

    /** The walk over one buffer: it ends, with every record visited once and in order, whenever it
        meets no noise path on a watched, reported record. */
    method Walk(buf: seq<byte>, envs: nat -> Env) returns (ghost k: nat)
      requires Valid() && WellFormed(buf, 0) && ClockAdvances(envs)
      requires NeverStuck(View(buf, 0), envs)
      modifies this
      ensures Valid() && View(buf, |buf|) == Iterate(old(View(buf, 0)), envs, k)
      ensures old(visits) <= visits && OffsetsOf(visits[|old(visits)|..]) == Offsets(buf, 0)
    {
      hide Step, Stuck, RecordAt, RecordFits, Deadline, LongPaths, KnownPath, ClockAdvances;
      hide Events, WellFormed, Offsets, OffsetsOf;
      ghost var start := View(buf, 0);
      var offset, i := 0, 0;
      ghost var last := NextChance(start, envs, 0);
      NoneAtEnd(buf);
      while offset < |buf|
        invariant Valid() && View(buf, offset) == Iterate(start, envs, i) && WellFormed(buf, offset)
        invariant i <= last && (RecordFits(buf, offset) ==> envs(last).now >= Deadline(View(buf, offset)))
        decreases |buf| - offset, if RecordFits(buf, offset) then LongPaths(View(buf, offset)) else {}, last - i
      {
        ghost var before := View(buf, offset);
        Unfinished(buf, offset);
        StepProgresses(before, envs(i));
        offset := Visited(buf, offset, envs(i));
        i := i + 1;
        WalkStaysWellFormed(start, envs, i);
        ghost var after := View(buf, offset);
        if !(offset == before.offset && LongPaths(after) == LongPaths(before)) {
          last := NextChance(after, envs, i);
        }
      }
      WellFormedIsInside(buf, offset);
      VisitsInOrder(start, envs, i);
      k := i;
      assert forall t: seq<nat> :: t + [] == t;
    }
  }

  lemma Unfinished(buf: seq<byte>, at: nat)
    requires WellFormed(buf, at) && at < |buf|
    ensures RecordFits(buf, at)
  {
  }

  lemma WellFormedIsInside(buf: seq<byte>, at: nat)
    requires WellFormed(buf, at)
    ensures at <= |buf|
  {
  }
}
