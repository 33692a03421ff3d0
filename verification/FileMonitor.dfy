/** The file integrity monitor: the walk over a buffer of inotify records, with debouncing, and the
    baseline of file metadata it keeps. */
module FileMonitor {
  import opened Shared
  import opened Frames

  // ---- Records in a buffer (struct inotify_event, little endian) ----

  const EVENT_SIZE: nat := 16

  const IN_MODIFY := 0x2
  const IN_ATTRIB := 0x4
  const IN_CREATE := 0x100
  const IN_DELETE := 0x200

  function GetLE32(b: seq<byte>, at: nat): nat
    requires at + 4 <= |b|
  {
    b[at] as nat + b[at + 1] as nat * 0x100 + b[at + 2] as nat * 0x1_0000 + b[at + 3] as nat * 0x100_0000
  }

  function TrimZeros(b: seq<byte>): seq<byte> {
    if b != [] && b[|b| - 1] == 0 then TrimZeros(b[..|b| - 1]) else b
  }

  function Text(b: seq<byte>): string {
    seq(|b|, i requires 0 <= i < |b| => b[i] as int as char)
  }

  // size: header and name field together; wd is the 32-bit pattern of the descriptor.
  datatype Record = Record(wd: nat, mask: nat, name: string, size: nat)

  // A whole record starts at `at`.
  predicate RecordFits(buf: seq<byte>, at: nat) {
    at + EVENT_SIZE <= |buf| && at + EVENT_SIZE + GetLE32(buf, at + 12) <= |buf|
  }

  function RecordAt(buf: seq<byte>, at: nat): (r: Record)
    requires RecordFits(buf, at)
    ensures EVENT_SIZE <= r.size && at + r.size <= |buf|
  {
    var len := GetLE32(buf, at + 12);
    Record(GetLE32(buf, at), GetLE32(buf, at + 4),
           Text(TrimZeros(buf[at + EVENT_SIZE..at + EVENT_SIZE + len])), EVENT_SIZE + len)
  }

  // From `at` on, the buffer is a sequence of whole records.
  predicate WellFormed(buf: seq<byte>, at: nat)
    decreases |buf| - at
  {
    at == |buf| || (RecordFits(buf, at) && WellFormed(buf, at + RecordAt(buf, at).size))
  }

  function Offsets(buf: seq<byte>, at: nat): seq<nat>
    requires WellFormed(buf, at)
    decreases |buf| - at
  {
    if at == |buf| then [] else [at] + Offsets(buf, at + RecordAt(buf, at).size)
  }

  // ---- Metadata, events and the baseline ----

  // hash is "" when the file could not be hashed.
  datatype Meta = Meta(size: int, mtime: int, uid: nat, gid: nat, mode: string, inode: nat, hash: string)

  datatype Kind = Added | Deleted | Modified

  // What an event reports of the file; the hash key is absent when there is no hash.
  datatype Attributes = Attributes(size: int, timestamp: int, uid: nat, gid: nat, mode: string, inode: nat,
                                   hash: Option<string>)

  datatype FimEvent = FimEvent(file: string, kind: Kind, attributes: Option<Attributes>,
    oldHash: Option<string>, oldMode: Option<string>, oldUid: Option<nat>, oldGid: Option<nat>)

  type Baseline = map<string, Meta>

  function Bare(file: string, kind: Kind): FimEvent {
    FimEvent(file, kind, None, None, None, None, None)
  }

  function Report(m: Meta): Attributes {
    Attributes(m.size, m.mtime, m.uid, m.gid, m.mode, m.inode, if m.hash != "" then Some(m.hash) else None)
  }

  function IfDiffers<T(==)>(was: T, now: T): Option<T> {
    if was != now then Some(was) else None
  }

  datatype Processed = Processed(baseline: Baseline, event: FimEvent)

  // meta: what getFileMetadata returns; None for an error.
  function Process(b: Baseline, file: string, kind: Kind, meta: Option<Meta>): Processed {
    if kind.Deleted? then Processed(b - {file}, Bare(file, kind))
    else if meta.None? then Processed(b, Bare(file, kind))
    else
      var m := meta.value;
      var plain := Bare(file, kind).(attributes := Some(Report(m)));
      var event :=
        if kind.Modified? && file in b then
          var o := b[file];
          plain.(oldHash := if o.hash != "" then IfDiffers(o.hash, m.hash) else None,
                 oldMode := IfDiffers(o.mode, m.mode),
                 oldUid := IfDiffers(o.uid, m.uid), oldGid := IfDiffers(o.gid, m.gid))
        else plain;
      Processed(b[file := m], event)
  }

  // ---- One iteration of the walk ----

  predicate HasSuffix(s: string, suffix: string) {
    |suffix| <= |s| && s[|s| - |suffix|..] == suffix
  }

  predicate IsNoise(path: string) {
    HasSuffix(path, ".N") || HasSuffix(path, ".tmp") || Contains(path, "cups") || Contains(path, "systemd")
    || Contains(path, "apt")
  }

  // filepath.Join of a clean directory and a single name.
  function PathOf(dir: string, name: string): string {
    if name == "" then dir else if dir == "/" then dir + name else dir + "/" + name
  }

  predicate HasBit(mask: nat, bit: nat)
    requires bit > 0
  {
    mask / bit % 2 == 1
  }

  function Classify(mask: nat): Option<Kind> {
    if HasBit(mask, IN_CREATE) then Some(Added)
    else if HasBit(mask, IN_DELETE) then Some(Deleted)
    else if HasBit(mask, IN_MODIFY) || HasBit(mask, IN_ATTRIB) then Some(Modified)
    else None
  }

  // The bits of a mask, told from its remainders: 0x2 modified, 0x4 attributes, 0x100 created, 0x200 deleted.
  function KindOfMask(mask: nat): Option<Kind> {
    if mask % 0x200 >= 0x100 then Some(Added)
    else if mask % 0x400 >= 0x200 then Some(Deleted)
    else if mask % 0x4 >= 0x2 || mask % 0x8 >= 0x4 then Some(Modified)
    else None
  }

  lemma BitByRemainder(mask: nat)
    ensures HasBit(mask, 0x100) <==> mask % 0x200 >= 0x100
    ensures HasBit(mask, 0x200) <==> mask % 0x400 >= 0x200
    ensures HasBit(mask, 0x2) <==> mask % 0x4 >= 0x2
    ensures HasBit(mask, 0x4) <==> mask % 0x8 >= 0x4
  {
    Halved(mask / 0x100);
    Halved(mask / 0x200);
    Halved(mask / 0x2);
    Halved(mask / 0x4);
    LowPart(mask);
  }

  lemma Halved(n: nat)
    ensures n % 2 == n - n / 2 * 2
  {
  }

  lemma LowPart(mask: nat)
    ensures mask / 0x100 / 2 == mask / 0x200 && mask / 0x200 / 2 == mask / 0x400
    ensures mask / 0x2 / 2 == mask / 0x4 && mask / 0x4 / 2 == mask / 0x8
  {
  }

  /** Creation comes before deletion, and both before a change of contents or attributes. */
  lemma ClassifyMeans(mask: nat)
    ensures Classify(mask) == KindOfMask(mask)
  {
    hide HasBit;
    BitByRemainder(mask);
  }

  /** What is noise: a path that ends in .N or .tmp, or has cups, systemd or apt anywhere in it. */
  lemma NoiseMeans(path: string)
    ensures IsNoise(path) <==>
              || (exists name :: path == name + ".N")
              || (exists name :: path == name + ".tmp")
              || (exists before, after :: path == before + "cups" + after)
              || (exists before, after :: path == before + "systemd" + after)
              || (exists before, after :: path == before + "apt" + after)
  {
    hide HasSuffix, Contains;
    SuffixMeans(path, ".N");
    SuffixMeans(path, ".tmp");
    ContainsMeans(path, "cups");
    ContainsMeans(path, "systemd");
    ContainsMeans(path, "apt");
  }

  lemma SuffixMeans(s: string, suffix: string)
    ensures HasSuffix(s, suffix) <==> exists name :: s == name + suffix
  {
    if HasSuffix(s, suffix) {
      assert s == s[..|s| - |suffix|] + suffix;
    }
    if name :| s == name + suffix {
      assert s[|s| - |suffix|..] == suffix;
    }
  }

  const DEBOUNCE: int := 500

  // What one iteration finds outside: the time shouldProcess reads, in milliseconds; the descriptor
  // addWatch gets when the new path is a directory; the file's metadata.
  datatype Env = Env(now: int, watch: Option<nat>, meta: Option<Meta>)

  // One visited record, and the event sent for it.
  datatype Visit = Visit(offset: nat, event: Option<FimEvent>)

  datatype State = State(buf: seq<byte>, offset: nat, watches: map<nat, string>,
                         lastEvent: map<string, int>, baseline: Baseline, visits: seq<Visit>)

  // The record at the offset, if it is watched and of a kind that is reported: its path and kind.
  function Subject(s: State): Option<(string, Kind)>
    requires RecordFits(s.buf, s.offset)
  {
    var r := RecordAt(s.buf, s.offset);
    if r.wd in s.watches && Classify(r.mask).Some? then
      Some((PathOf(s.watches[r.wd], r.name), Classify(r.mask).value))
    else None
  }

  predicate Debounced(s: State, path: string, now: int) {
    path in s.lastEvent && now - s.lastEvent[path] < DEBOUNCE
  }

  function Advance(s: State, event: Option<FimEvent>): State
    requires RecordFits(s.buf, s.offset)
  {
    s.(offset := s.offset + RecordAt(s.buf, s.offset).size, visits := s.visits + [Visit(s.offset, event)])
  }

  // One pass through the loop body. A noisy or debounced record leaves the offset where it is.
  function Step(s: State, env: Env): State
    requires RecordFits(s.buf, s.offset)
  {
    match Subject(s)
    case None => Advance(s, None)
    case Some((path, kind)) =>
      var watching := if kind.Added? && env.watch.Some? then s.(watches := s.watches[env.watch.value := path]) else s;
      if IsNoise(path) || Debounced(s, path, env.now) then watching
      else
        var p := Process(s.baseline, path, kind, env.meta);
        Advance(watching.(lastEvent := s.lastEvent[path := env.now], baseline := p.baseline), Some(p.event))
  }

  // ---- The walk over one buffer ----

  // The state after k iterations; past the end nothing happens.
  function Iterate(s: State, envs: nat -> Env, k: nat): State {
    if k == 0 then s
    else
      var p := Iterate(s, envs, k - 1);
      if RecordFits(p.buf, p.offset) then Step(p, envs(k - 1)) else p
  }

  // The loop body will `continue` here for ever: a noise path on a watched, reported record.
  predicate Stuck(s: State) {
    RecordFits(s.buf, s.offset) && Subject(s).Some? && IsNoise(Subject(s).value.0)
  }

  // From iteration k on, the clock still gets to t.
  ghost predicate Passes(envs: nat -> Env, k: nat, t: int) {
    exists j: nat :: k <= j && envs(j).now >= t
  }

  // The clock passes every time; any number of iterations may fall into one millisecond.
  ghost predicate ClockAdvances(envs: nat -> Env) {
    forall k: nat, t: int :: Passes(envs, k, t)
  }

  lemma {:induction false} ClockNeverBack(envs: nat -> Env, j: nat, k: nat)
    requires j <= k && forall i: nat :: envs(i).now <= envs(i + 1).now
    ensures envs(j).now <= envs(k).now
    decreases k
  {
    if j < k {
      ClockNeverBack(envs, j, k - 1);
      assert envs(k - 1).now <= envs(k - 1 + 1).now;
    }
  }

  /** A clock that never goes back and does not stop for good advances in this sense. */
  lemma SteadyClockAdvances(envs: nat -> Env)
    requires forall k: nat :: envs(k).now <= envs(k + 1).now
    requires forall t: int :: Passes(envs, 0, t)
    ensures ClockAdvances(envs)
  {
    forall k: nat, t: int ensures Passes(envs, k, t) {
      assert Passes(envs, 0, t);
      var j: nat :| envs(j).now >= t;
      if j < k {
        ClockNeverBack(envs, j, k);
      }
    }
  }

  // The walk gets to the end of the buffer; it meets no record it cannot pass.
  ghost predicate Ends(s: State, envs: nat -> Env) {
    exists k: nat :: Iterate(s, envs, k).offset == |s.buf|
  }

  ghost predicate NeverStuck(s: State, envs: nat -> Env) {
    forall k: nat :: !Stuck(Iterate(s, envs, k))
  }

  lemma SuffixStays(x: string, y: string, name: string, suffix: string)
    requires x != "" && x[|x| - 1] == '/' && '/' !in suffix && HasSuffix(x + name, suffix)
    ensures HasSuffix(y + name, suffix)
  {
    var whole := x + name;
    var start := |whole| - |suffix|;
    forall i | start <= i < |whole| ensures whole[i] != '/' {
      assert whole[i] == whole[start..][i - start] == suffix[i - start];
    }
    assert whole[|x| - 1] == '/';
    assert (y + name)[|y| + |name| - |suffix|..] == name[|name| - |suffix|..] == whole[|whole| - |suffix|..];
  }

  lemma ContainsStays(s: string, more: string, part: string)
    requires Contains(s, part)
    ensures Contains(s + more, part)
  {
    var i :| 0 <= i <= |s| && part <= s[i..];
    assert (s + more)[i..] == s[i..] + more;
  }

  lemma NoiseStays(path: string, x: string, y: string, name: string)
    requires path == x + name && x != "" && x[|x| - 1] == '/' && IsNoise(path)
    requires exists more :: y + name == path + more
    ensures IsNoise(y + name)
  {
    hide HasSuffix, Contains;
    var more :| y + name == path + more;
    if HasSuffix(path, ".N") { SuffixStays(x, y, name, ".N"); }
    if HasSuffix(path, ".tmp") { SuffixStays(x, y, name, ".tmp"); }
    if Contains(path, "cups") { ContainsStays(path, more, "cups"); }
    if Contains(path, "systemd") { ContainsStays(path, more, "systemd"); }
    if Contains(path, "apt") { ContainsStays(path, more, "apt"); }
  }

  // A link to its own directory renames that directory to the record's path: still noise.
  lemma NoiseOutlivesRename(dir: string, name: string)
    requires IsNoise(PathOf(dir, name))
    ensures IsNoise(PathOf(PathOf(dir, name), name))
  {
    hide IsNoise;
    if name != "" {
      var path := PathOf(dir, name);
      var x := if dir == "/" then dir else dir + "/";
      assert path == x + name;
      assert PathOf(path, name) == (path + "/") + name == path + ("/" + name);
      NoiseStays(path, x, path + "/", name);
    }
  }

  lemma StuckStays(s: State, env: Env)
    requires Stuck(s)
    ensures Stuck(Step(s, env)) && Step(s, env) == s.(watches := Step(s, env).watches)
  {
    hide RecordAt, Classify, IsNoise, PathOf;
    var r := RecordAt(s.buf, s.offset);
    NoiseOutlivesRename(s.watches[r.wd], r.name);
  }

  lemma {:induction false} StuckForEver(s: State, envs: nat -> Env, k: nat, j: nat)
    requires Stuck(Iterate(s, envs, k)) && k <= j
    ensures Stuck(Iterate(s, envs, j)) && Iterate(s, envs, j).offset == Iterate(s, envs, k).offset
    ensures Iterate(s, envs, j).visits == Iterate(s, envs, k).visits
    decreases j
  {
    hide Step, Stuck;
    if k < j {
      StuckForEver(s, envs, k, j - 1);
      var p := Iterate(s, envs, j - 1);
      assert RecordFits(p.buf, p.offset) by { StuckFits(p); }
      StuckStays(p, envs(j - 1));
    }
  }

  lemma StuckFits(s: State)
    requires Stuck(s)
    ensures RecordFits(s.buf, s.offset) && s.offset < |s.buf|
  {
  }

  // An iteration either stays at a reported record or visits the record and moves past it.
  lemma StepShape(s: State, env: Env)
    requires RecordFits(s.buf, s.offset)
    ensures var n := Step(s, env);
            && n.buf == s.buf
            && (forall wd :: env.watch != Some(wd) ==>
                  (wd in n.watches <==> wd in s.watches) && (wd in s.watches ==> n.watches[wd] == s.watches[wd]))
            && (Stuck(s) ==> n.offset == s.offset)
            && if n.offset == s.offset then n.visits == s.visits
               else n.offset == s.offset + RecordAt(s.buf, s.offset).size &&
                    exists event :: n.visits == s.visits + [Visit(s.offset, event)]
  {
    hide Classify, IsNoise, Process, PathOf;
    var n := Step(s, env);
    if n.offset != s.offset {
      assert n.visits == s.visits + [Visit(s.offset, n.visits[|s.visits|].event)];
    }
  }

  lemma {:induction false} WalkStaysWellFormed(s: State, envs: nat -> Env, k: nat)
    requires WellFormed(s.buf, s.offset)
    ensures var p := Iterate(s, envs, k); p.buf == s.buf && WellFormed(p.buf, p.offset) && p.offset >= s.offset
  {
    hide RecordAt, Step, RecordFits, Stuck;
    if k > 0 {
      WalkStaysWellFormed(s, envs, k - 1);
      var p := Iterate(s, envs, k - 1);
      if RecordFits(p.buf, p.offset) {
        StepShape(p, envs(k - 1));
        NextIsWellFormed(p.buf, p.offset);
      }
    }
  }

  lemma NextIsWellFormed(buf: seq<byte>, at: nat)
    requires WellFormed(buf, at) && RecordFits(buf, at)
    ensures RecordAt(buf, at).size > 0 && WellFormed(buf, at + RecordAt(buf, at).size)
    ensures Offsets(buf, at) == [at] + Offsets(buf, at + RecordAt(buf, at).size)
  {
  }

  // The path of the record at the offset, if it was reported before.
  function KnownPath(s: State): Option<string>
    requires RecordFits(s.buf, s.offset)
  {
    if Subject(s).Some? && Subject(s).value.0 in s.lastEvent then Some(Subject(s).value.0) else None
  }

  // When the record at the offset is no longer debounced.
  function Deadline(s: State): int
    requires RecordFits(s.buf, s.offset)
  {
    if KnownPath(s).Some? then s.lastEvent[KnownPath(s).value] + DEBOUNCE else 0
  }

  // The known paths the record could still be renamed to while it waits.
  function LongPaths(s: State): set<string>
    requires RecordFits(s.buf, s.offset)
  {
    if KnownPath(s).None? then {}
    else set path | path in s.lastEvent && |path| >= |KnownPath(s).value|
  }

  /** An iteration that is not stuck visits the record, exactly if it is not debounced. If it is, the
      record waits for the same deadline, unless its directory was renamed: then its path is longer
      than before, and fewer known paths are left. */
  lemma StepProgresses(s: State, env: Env)
    requires RecordFits(s.buf, s.offset) && !Stuck(s)
    ensures var n := Step(s, env);
            && n.buf == s.buf
            && (n.offset > s.offset <==> KnownPath(s).None? || env.now >= Deadline(s))
            && (n.offset <= s.offset ==>
                  && n.offset == s.offset
                  && (LongPaths(n) < LongPaths(s) || (LongPaths(n) == LongPaths(s) && Deadline(n) == Deadline(s))))
  {
    hide RecordAt, Classify, IsNoise, Process;
    SizeIsPositive(s.buf, s.offset);
    var n := Step(s, env);
    if n.offset <= s.offset {
      var r := RecordAt(s.buf, s.offset);
      var path := KnownPath(s).value;
      if env.watch == Some(r.wd) && r.name != "" && Subject(n) != Subject(s) {
        assert |Subject(n).value.0| > |path|;
        assert path in LongPaths(s) && path !in LongPaths(n);
      }
    }
  }

  lemma SizeIsPositive(buf: seq<byte>, at: nat)
    requires RecordFits(buf, at)
    ensures RecordAt(buf, at).size > 0
  {
  }

  // A later iteration at which the record at the offset is no longer debounced.
  lemma NextChance(s: State, envs: nat -> Env, k: nat) returns (last: nat)
    requires ClockAdvances(envs)
    ensures k <= last && (RecordFits(s.buf, s.offset) ==> envs(last).now >= Deadline(s))
  {
    var t := if RecordFits(s.buf, s.offset) then Deadline(s) else 0;
    assert Passes(envs, k, t);
    last :| k <= last && envs(last).now >= t;
  }

  lemma {:induction false} ReachesEnd(s: State, envs: nat -> Env, k: nat, last: nat) returns (j: nat)
    requires WellFormed(s.buf, s.offset) && ClockAdvances(envs) && NeverStuck(s, envs)
    requires k <= last
    requires var p := Iterate(s, envs, k); RecordFits(p.buf, p.offset) ==> envs(last).now >= Deadline(p)
    ensures Iterate(s, envs, j).offset == |s.buf|
    decreases |s.buf| - Iterate(s, envs, k).offset,
              (var p := Iterate(s, envs, k); if RecordFits(p.buf, p.offset) then LongPaths(p) else {}),
              last - k
  {
    hide Step, Stuck, RecordAt, Subject, Deadline, LongPaths, KnownPath, ClockAdvances;
    WalkStaysWellFormed(s, envs, k);
    var p := Iterate(s, envs, k);
    if p.offset == |s.buf| {
      return k;
    }
    StepProgresses(p, envs(k));
    WalkStaysWellFormed(s, envs, k + 1);
    var n := Iterate(s, envs, k + 1);
    if n.offset == p.offset && LongPaths(n) == LongPaths(p) {
      j := ReachesEnd(s, envs, k + 1, last);
    } else {
      var later := NextChance(n, envs, k + 1);
      j := ReachesEnd(s, envs, k + 1, later);
    }
  }

  lemma EndIsReached(s: State, envs: nat -> Env) returns (j: nat)
    requires WellFormed(s.buf, s.offset) && ClockAdvances(envs) && NeverStuck(s, envs)
    ensures Iterate(s, envs, j).offset == |s.buf|
  {
    hide Step, Stuck, RecordAt, Deadline, ClockAdvances, NeverStuck, WellFormed;
    var last := NextChance(s, envs, 0);
    j := ReachesEnd(s, envs, 0, last);
  }

  lemma StuckNeverEnds(s: State, envs: nat -> Env, k: nat, j: nat)
    requires WellFormed(s.buf, s.offset) && Stuck(Iterate(s, envs, k))
    ensures Iterate(s, envs, j).offset != |s.buf|
  {
    hide Step, Stuck, RecordAt, RecordFits;
    WalkStaysWellFormed(s, envs, j);
    WalkStaysWellFormed(s, envs, k);
    StuckFits(Iterate(s, envs, k));
    if k <= j {
      StuckForEver(s, envs, k, j);
    } else if Iterate(s, envs, j).offset == |s.buf| {
      EndIsFinal(s, envs, j, k);
    }
  }

  /** On a buffer of well-formed records and under an advancing clock, the walk reaches the end of
      the buffer exactly when it never meets a noise path on a watched, reported record. */
  lemma WalkEndsIff(s: State, envs: nat -> Env)
    requires WellFormed(s.buf, s.offset) && ClockAdvances(envs)
    ensures Ends(s, envs) <==> NeverStuck(s, envs)
  {
    hide Step, Stuck, WellFormed, ClockAdvances, RecordFits;
    if NeverStuck(s, envs) {
      var j := EndIsReached(s, envs);
      assert Iterate(s, envs, j).offset == |s.buf|;
    } else if Ends(s, envs) {
      var k: nat :| Stuck(Iterate(s, envs, k));
      var j: nat :| Iterate(s, envs, j).offset == |s.buf|;
      StuckNeverEnds(s, envs, k, j);
    }
  }

  lemma {:induction false} EndIsFinal(s: State, envs: nat -> Env, j: nat, k: nat)
    requires Iterate(s, envs, j).offset == |Iterate(s, envs, j).buf| && j <= k
    ensures Iterate(s, envs, k) == Iterate(s, envs, j)
    decreases k
  {
    hide Step;
    if j < k {
      EndIsFinal(s, envs, j, k - 1);
    }
  }

  // A record of the buffer that would stop the walk with the watches the walk starts with.
  predicate NoisyAt(s: State, at: nat) {
    Stuck(s.(offset := at))
  }

  // The records ahead were read before any directory of the walk was watched: a descriptor the
  // walk gets is not one they name.
  ghost predicate FreshDescriptors(s: State, envs: nat -> Env)
    requires WellFormed(s.buf, s.offset)
  {
    forall i: nat, at :: at in Offsets(s.buf, s.offset) && RecordFits(s.buf, at) ==>
      envs(i).watch != Some(RecordAt(s.buf, at).wd)
  }

  // The watches of the records ahead are those the walk started with.
  ghost predicate SameWatches(s: State, p: State)
    requires WellFormed(s.buf, s.offset)
  {
    p.buf == s.buf &&
    forall at :: at in Offsets(s.buf, s.offset) && RecordFits(s.buf, at) ==>
      var wd := RecordAt(s.buf, at).wd;
      (wd in p.watches <==> wd in s.watches) && (wd in s.watches ==> p.watches[wd] == s.watches[wd])
  }

  lemma {:induction false} WatchesStay(s: State, envs: nat -> Env, k: nat)
    requires WellFormed(s.buf, s.offset) && FreshDescriptors(s, envs)
    ensures SameWatches(s, Iterate(s, envs, k))
  {
    hide Step, RecordAt, RecordFits, Stuck, WellFormed, Offsets;
    if k > 0 {
      WatchesStay(s, envs, k - 1);
      var p := Iterate(s, envs, k - 1);
      if RecordFits(p.buf, p.offset) { StepShape(p, envs(k - 1)); }
    }
  }

  function OffsetsOf(visits: seq<Visit>): seq<nat> {
    if visits == [] then [] else OffsetsOf(visits[..|visits| - 1]) + [visits[|visits| - 1].offset]
  }

  /** The walk visits each record exactly once, in buffer order: what it has visited, followed by the
      records from its offset on, are the records of the buffer. */
  lemma {:induction false} VisitsInOrder(s: State, envs: nat -> Env, k: nat)
    requires WellFormed(s.buf, s.offset)
    ensures var p := Iterate(s, envs, k);
            && p.buf == s.buf && WellFormed(s.buf, p.offset)
            && s.visits <= p.visits
            && OffsetsOf(p.visits[|s.visits|..]) + Offsets(s.buf, p.offset) == Offsets(s.buf, s.offset)
  {
    hide Step, RecordAt, RecordFits, Stuck, WellFormed, Offsets, OffsetsOf;
    if k == 0 {
      assert OffsetsOf(s.visits[|s.visits|..]) == [] by { NoVisits(s.visits); }
      assert [] + Offsets(s.buf, s.offset) == Offsets(s.buf, s.offset);
    } else {
      VisitsInOrder(s, envs, k - 1);
      var p, q := Iterate(s, envs, k - 1), Iterate(s, envs, k);
      if RecordFits(p.buf, p.offset) {
        StepShape(p, envs(k - 1));
        NextIsWellFormed(p.buf, p.offset);
        if q.offset != p.offset {
          MadeGrows(s.visits, p.visits, q.visits[|p.visits|]);
          ConcatAssoc(OffsetsOf(p.visits[|s.visits|..]), [p.offset], Offsets(s.buf, q.offset));
        }
      }
    }
  }

  lemma NoVisits(visits: seq<Visit>)
    ensures OffsetsOf(visits[|visits|..]) == []
  {
    assert visits[|visits|..] == [];
  }

  lemma MadeGrows(before: seq<Visit>, visits: seq<Visit>, v: Visit)
    requires before <= visits
    ensures OffsetsOf((visits + [v])[|before|..]) == OffsetsOf(visits[|before|..]) + [v.offset]
  {
    var made := visits[|before|..];
    assert (visits + [v])[|before|..] == made + [v];
    assert (made + [v])[..|made|] == made;
  }

  // A record that was visited was no noise.
  lemma {:induction false} VisitedAreQuiet(s: State, envs: nat -> Env, k: nat)
    requires WellFormed(s.buf, s.offset) && FreshDescriptors(s, envs)
    ensures var p := Iterate(s, envs, k);
            && s.visits <= p.visits
            && forall i :: 0 <= i < |OffsetsOf(p.visits[|s.visits|..])| ==>
                 !NoisyAt(s, OffsetsOf(p.visits[|s.visits|..])[i])
  {
    hide Step, RecordAt, RecordFits, Stuck, WellFormed, Offsets, NoisyAt, FreshDescriptors, SameWatches;
    VisitsInOrder(s, envs, k);
    if k == 0 {
      assert s.visits[|s.visits|..] == [];
    } else {
      VisitedAreQuiet(s, envs, k - 1);
      var p, q := Iterate(s, envs, k - 1), Iterate(s, envs, k);
      if RecordFits(p.buf, p.offset) {
        StepShape(p, envs(k - 1));
        if q.offset != p.offset {
          StuckIsNoisy(s, envs, k - 1);
          MadeGrows(s.visits, p.visits, q.visits[|p.visits|]);
        }
      }
    }
  }

  // Wherever the walk stands, being stuck there can be told from the start.
  lemma StuckIsNoisy(s: State, envs: nat -> Env, k: nat)
    requires WellFormed(s.buf, s.offset) && FreshDescriptors(s, envs)
    requires var p := Iterate(s, envs, k); RecordFits(p.buf, p.offset)
    ensures Iterate(s, envs, k).offset in Offsets(s.buf, s.offset)
    ensures Stuck(Iterate(s, envs, k)) <==> NoisyAt(s, Iterate(s, envs, k).offset)
  {
    hide Iterate, Stuck, NoisyAt, RecordAt, RecordFits, Offsets, WellFormed, FreshDescriptors, SameWatches;
    var p := Iterate(s, envs, k);
    VisitsInOrder(s, envs, k);
    WatchesStay(s, envs, k);
    NextIsWellFormed(s.buf, p.offset);
    var i := |OffsetsOf(p.visits[|s.visits|..])|;
    assert Offsets(s.buf, s.offset)[i] == p.offset;
    NoisyMeansStuck(s, p);
  }

  lemma NoisyMeansStuck(s: State, p: State)
    requires WellFormed(s.buf, s.offset) && SameWatches(s, p) && p.offset in Offsets(s.buf, s.offset)
    ensures NoisyAt(s, p.offset) <==> Stuck(p)
  {
    hide RecordAt, IsNoise, PathOf, WellFormed, Offsets, RecordFits;
  }

  /** Whether the walk ends can be told beforehand, also when directories are created during it: it
      ends, having visited every record once and in order, exactly when no record of the buffer is a
      noise path that is watched and reported. */
  lemma WalkEndsIffNoNoise(s: State, envs: nat -> Env)
    requires WellFormed(s.buf, s.offset) && ClockAdvances(envs) && FreshDescriptors(s, envs)
    ensures Ends(s, envs) <==>
            (forall i :: 0 <= i < |Offsets(s.buf, s.offset)| ==> !NoisyAt(s, Offsets(s.buf, s.offset)[i]))
  {
    hide Iterate, Stuck, NoisyAt, WellFormed, ClockAdvances, RecordAt, FreshDescriptors;
    WalkEndsIff(s, envs);
    if NeverStuck(s, envs) {
      var j := EndIsReached(s, envs);
      VisitsInOrder(s, envs, j);
      VisitedAreQuiet(s, envs, j);
      NoneAtEnd(s.buf);
      assert forall t: seq<nat> :: t + [] == t;
    } else {
      var k: nat :| Stuck(Iterate(s, envs, k));
      StuckFits(Iterate(s, envs, k));
      StuckIsNoisy(s, envs, k);
    }
  }

  lemma NoneAtEnd(buf: seq<byte>)
    ensures WellFormed(buf, |buf|) && Offsets(buf, |buf|) == []
  {
  }

  // ---- Records as the kernel writes them ----

  function PutLE32(n: nat): (b: seq<byte>)
    requires n < U32_RANGE
    ensures |b| == 4
  {
    [n % 0x100, n / 0x100 % 0x100, n / 0x1_0000 % 0x100, n / 0x100_0000]
  }

  function Zeros(n: nat): seq<byte> {
    seq(n, _ => 0)
  }

  // Descriptor, mask, cookie and length of the name field, least byte first; the name, padded with zeros.
  function EncodeRecord(wd: nat, mask: nat, cookie: nat, name: seq<byte>, padding: nat): seq<byte>
    requires wd < U32_RANGE && mask < U32_RANGE && cookie < U32_RANGE && |name| + padding < U32_RANGE
  {
    PutLE32(wd) + PutLE32(mask) + PutLE32(cookie) + PutLE32(|name| + padding) + name + Zeros(padding)
  }

  lemma LE32RoundTrip(buf: seq<byte>, at: nat, n: nat)
    requires n < U32_RANGE && at + 4 <= |buf| && buf[at..at + 4] == PutLE32(n)
    ensures GetLE32(buf, at) == n
  {
    var b := PutLE32(n);
    var field := buf[at..at + 4];
    assert buf[at] == field[0] && buf[at + 1] == field[1] && buf[at + 2] == field[2] && buf[at + 3] == field[3];
    assert n / 0x1_0000 == n / 0x100_0000 * 0x100 + n / 0x1_0000 % 0x100;
    assert n / 0x100 == n / 0x1_0000 * 0x100 + n / 0x100 % 0x100;
  }

  /** Wherever a record lies in the buffer, it is read as it was written: descriptor, mask and name, and
      the padding is not part of the name. */
  lemma RecordRoundTrip(
    before: seq<byte>, after: seq<byte>, wd: nat, mask: nat, cookie: nat, name: seq<byte>, padding: nat)
    requires wd < U32_RANGE && mask < U32_RANGE && cookie < U32_RANGE && |name| + padding < U32_RANGE
    requires name != [] && name[|name| - 1] != 0
    ensures var buf := before + EncodeRecord(wd, mask, cookie, name, padding) + after;
            && RecordFits(buf, |before|)
            && RecordAt(buf, |before|) == Record(wd, mask, Text(name), 16 + |name| + padding)
  {
    hide PutLE32, GetLE32, TrimZeros, Text;
    var buf := before + EncodeRecord(wd, mask, cookie, name, padding) + after;
    var at := |before|;
    assert buf[at..at + 4] == PutLE32(wd);
    assert buf[at + 4..at + 8] == PutLE32(mask);
    assert buf[at + 12..at + 16] == PutLE32(|name| + padding);
    LE32RoundTrip(buf, at, wd);
    LE32RoundTrip(buf, at + 4, mask);
    LE32RoundTrip(buf, at + 12, |name| + padding);
    assert buf[at + 16..at + 16 + (|name| + padding)] == name + Zeros(padding);
    PaddingIsTrimmed(name, padding);
  }

  // ---- A record that stops the monitor ----

  // A write to "x.tmp" in the directory with descriptor 1, as the kernel delivers it.
  const NOISE_RECORD: seq<byte> :=
    [1, 0, 0, 0, 2, 0, 0, 0, 0, 0, 0, 0, 16, 0, 0, 0] +
    [120, 46, 116, 109, 112, 0, 0, 0, 0, 0, 0, 0, 0, 0, 0, 0]

  lemma {:induction false} PaddingIsTrimmed(b: seq<byte>, n: nat)
    requires b != [] && b[|b| - 1] != 0
    ensures TrimZeros(b + Zeros(n)) == b
  {
    var padded := b + Zeros(n);
    if n == 0 {
      assert padded == b;
    } else {
      PaddingIsTrimmed(b, n - 1);
      assert padded[..|padded| - 1] == b + Zeros(n - 1);
    }
  }

  lemma NoiseRecordIs()
    ensures RecordFits(NOISE_RECORD, 0) && RecordAt(NOISE_RECORD, 0) == Record(1, 2, "x.tmp", 32)
  {
    var name: seq<byte> := [120, 46, 116, 109, 112];
    PaddingIsTrimmed(name, 11);
    assert NOISE_RECORD[16..32] == name + Zeros(11);
    assert Text(name) == "x.tmp";
  }

  /** One ordinary write to "/etc/x.tmp" stops the monitor: the buffer is well-formed, and the walk
      never ends, whatever the clock does. */
  lemma NoiseRecordStopsWalk(envs: nat -> Env)
    ensures WellFormed(NOISE_RECORD, 0)
    ensures !Ends(State(NOISE_RECORD, 0, map[1 := "/etc"], map[], map[], []), envs)
  {
    var s := State(NOISE_RECORD, 0, map[1 := "/etc"], map[], map[], []);
    NoiseRecordIs();
    NoneAtEnd(NOISE_RECORD);
    var path := "/etc" + "/" + "x.tmp";
    assert path[|path| - 4..] == ".tmp";
    assert Stuck(Iterate(s, envs, 0));
    hide Iterate, Stuck, RecordAt, RecordFits, WellFormed;
    if Ends(s, envs) {
      var j: nat :| Iterate(s, envs, j).offset == |s.buf|;
      StuckNeverEnds(s, envs, 0, j);
    }
  }
}
