/** SocketFrameParser of the worker's receiver: rebuilds frames from arbitrary chunks while an
    asynchronous callback may still be running.

    `process` gives up control only at `await this.onFrame(...)`. Its run is therefore cut into
    atomic segments: one that an `append` starts, and one that starts when the pending callback
    settles. Between two segments anything may happen, in particular further appends. */
module FrameParser {
  import opened Frames

  // calls: the frames onFrame was called with; settled: how many of those calls have finished
  // (normally or with an error, which the loop swallows).
  datatype State = State(buffer: seq<byte>, isProcessing: bool, calls: seq<Frame>, settled: nat)

  const INITIAL := State([], false, [], 0)

  datatype Event = Chunk(bytes: seq<byte>) | Settled

  // From the head of the loop to the next await, or out of the loop.
  function Pass(s: State): State {
    match Take(s.buffer)
    case Incomplete => s.(isProcessing := false)
    case Took(f, rest) => s.(buffer := rest, calls := s.calls + [f])
  }

  function Receive(s: State, chunk: seq<byte>): State {
    var grown := s.(buffer := s.buffer + chunk);
    if grown.isProcessing then grown else Pass(grown.(isProcessing := true))
  }

  predicate CallPending(s: State) {
    s.settled < |s.calls|
  }

  function Settle(s: State): State
    requires CallPending(s)
  {
    Pass(s.(settled := s.settled + 1))
  }

  // Nothing can settle when no call is pending.
  function Step(s: State, e: Event): State {
    match e
    case Chunk(bytes) => Receive(s, bytes)
    case Settled => if CallPending(s) then Settle(s) else s
  }

  function Run(events: seq<Event>): State {
    if events == [] then INITIAL
    else Step(Run(events[..|events| - 1]), events[|events| - 1])
  }

  function BytesOf(events: seq<Event>): seq<byte> {
    if events == [] then []
    else
      BytesOf(events[..|events| - 1]) +
      match events[|events| - 1] { case Chunk(bytes) => bytes case Settled => [] }
  }

  // What holds between any two segments once `bytes` have been appended.
  ghost predicate Inv(s: State, bytes: seq<byte>) {
    && EncodeAll(s.calls) + s.buffer == bytes
    && AllFit(s.calls)
    && (s.isProcessing <==> CallPending(s))
    && |s.calls| <= s.settled + 1
    && (!s.isProcessing ==> Take(s.buffer).Incomplete?)
    && s.settled <= |s.calls|
  }

  lemma PassKeepsInv(s: State, bytes: seq<byte>)
    requires EncodeAll(s.calls) + s.buffer == bytes && AllFit(s.calls)
    requires s.settled == |s.calls| && s.isProcessing
    ensures Inv(Pass(s), bytes)
  {
    if Take(s.buffer).Took? {
      var Took(f, rest) := Take(s.buffer);
      TakeIsEncoded(s.buffer);
      EncodeAllSnoc(s.calls, f);
      assert EncodeAll(s.calls) + (Encode(f) + rest) == EncodeAll(s.calls) + Encode(f) + rest;
    }
  }

  lemma StepKeepsInv(s: State, bytes: seq<byte>, e: Event)
    requires Inv(s, bytes)
    ensures Inv(Step(s, e), bytes + if e.Chunk? then e.bytes else [])
  {
    match e
    case Chunk(more) =>
      var grown := s.(buffer := s.buffer + more);
      assert EncodeAll(s.calls) + (s.buffer + more) == bytes + more;
      if !s.isProcessing {
        PassKeepsInv(grown.(isProcessing := true), bytes + more);
      }
    case Settled =>
      assert bytes + [] == bytes;
      if CallPending(s) {
        PassKeepsInv(s.(settled := s.settled + 1), bytes);
      }
  }

  /** In every reachable state: nothing is lost or invented (calls, re-encoded, followed by the
      buffer are all bytes appended), at most one onFrame call is unfinished, isProcessing is true
      exactly while one is, and an idle parser holds no complete frame (no lost wakeup). */
  lemma {:induction false} ReachableInv(events: seq<Event>)
    ensures Inv(Run(events), BytesOf(events))
  {
    if events != [] {
      var init, last := events[..|events| - 1], events[|events| - 1];
      ReachableInv(init);
      StepKeepsInv(Run(init), BytesOf(init), last);
    }
  }

  /** At any moment, the frames delivered so far and those still in the buffer are the frames of
      the concatenated bytes, however they were cut into chunks and whenever calls settled. */
  lemma DeliveryFollowsStream(events: seq<Event>)
    ensures Run(events).calls + Decode(Run(events).buffer).frames == Decode(BytesOf(events)).frames
    ensures Decode(Run(events).buffer).rest == Decode(BytesOf(events)).rest
  {
    ReachableInv(events);
    DecodeEncoded(Run(events).calls, Run(events).buffer);
  }

  /** Chunk independence: two idle parsers that were sent the same bytes are in the same state
      and made the same calls. */
  lemma ChunkIndependence(one: seq<Event>, two: seq<Event>)
    requires BytesOf(one) == BytesOf(two)
    requires !Run(one).isProcessing && !Run(two).isProcessing
    ensures Run(one) == Run(two)
    ensures Decoded(Run(one).calls, Run(one).buffer) == Decode(BytesOf(one))
  {
    DeliveryFollowsStream(one);
    DeliveryFollowsStream(two);
    ReachableInv(one);
    ReachableInv(two);
  }

  /** Decode inverts encode through the parser: an idle parser that was sent exactly the encoding
      of some frames has called back with those frames, and holds no byte. */
  lemma DeliversWhatWasEncoded(fs: seq<Frame>, events: seq<Event>)
    requires AllFit(fs)
    requires BytesOf(events) == EncodeAll(fs)
    requires !Run(events).isProcessing
    ensures Run(events).calls == fs && Run(events).buffer == []
  {
    ReachableInv(events);
    DeliveryFollowsStream(events);
    DecodeAll(fs);
    assert Decode(Run(events).buffer) == Decoded([], Run(events).buffer);
  }

  lemma PassDelivers(s: State)
    ensures Pass(s).calls + Decode(Pass(s).buffer).frames == s.calls + Decode(s.buffer).frames
    ensures Decode(Pass(s).buffer).rest == Decode(s.buffer).rest
    ensures Pass(s).calls == s.calls + Decode(s.buffer).frames[..|Pass(s).calls| - |s.calls|]
  {
    hide GetU32;
    if Take(s.buffer).Took? {
      var Took(f, rest) := Take(s.buffer);
      assert Decode(s.buffer).frames == [f] + Decode(rest).frames;
      ConcatAssoc(s.calls, [f], Decode(rest).frames);
    }
  }

  function Settles(n: nat): seq<Event> {
    seq(n, _ => Settled)
  }

  /** No frame waits for a further append: if every pending call settles, then after as many
      settlements as frames are waiting, plus one, the parser is idle and all were delivered. */
  lemma {:induction false} SettlingDrains(events: seq<Event>)
    requires Run(events).isProcessing
    ensures var waiting := Decode(Run(events).buffer).frames;
            var s := Run(events + Settles(|waiting| + 1));
            !s.isProcessing && s.calls == Run(events).calls + waiting
    decreases |Decode(Run(events).buffer).frames|
  {
    hide Take, EncodeAll;
    var s := Run(events);
    var waiting := Decode(s.buffer).frames;
    ReachableInv(events);
    var next := events + [Settled];
    assert next[..|events|] == events;
    assert Run(next) == Settle(s);
    ReachableInv(next);
    PassDelivers(s.(settled := s.settled + 1));
    if waiting == [] {
      assert Settles(1) == [Settled];
    } else {
      assert Run(next).isProcessing;
      SettlingDrains(next);
      assert Run(next).calls == s.calls + waiting[..1];
      assert Decode(Run(next).buffer).frames == waiting[1..];
      assert next + Settles(|waiting|) == events + Settles(|waiting| + 1);
      assert Run(next).calls + waiting[1..] == s.calls + waiting;
    }
  }

  /** The parser object. `calls` and `settled` only record what the callback sees. */
  class SocketFrameParser {
    var buffer: seq<byte>
    var isProcessing: bool
    ghost var calls: seq<Frame>
    ghost var settled: nat

    ghost function View(): State
      reads this
    {
      State(buffer, isProcessing, calls, settled)
    }

    constructor ()
      ensures View() == INITIAL
    {
      buffer, isProcessing, calls, settled := [], false, [], 0;
    }

    method Append(chunk: seq<byte>)
      modifies this
      ensures View() == Receive(old(View()), chunk)
    {
      buffer := buffer + chunk;
      if isProcessing {
        return;
      }
      isProcessing := true;
      RunToAwait();
    }

    method CallbackSettled()
      requires CallPending(View())
      modifies this
      ensures View() == Settle(old(View()))
    {
      settled := settled + 1;
      RunToAwait();
    }

    method RunToAwait()
      modifies this
      ensures View() == Pass(old(View()))
    {
      if |buffer| < HEADER_SIZE {
        isProcessing := false;
        return;
      }
      var kind := buffer[0];
      var length := GetU32(buffer[1..5]);
      if |buffer| < HEADER_SIZE + length {
        isProcessing := false;
        return;
      }
      var payload := buffer[5..5 + length];
      buffer := buffer[5 + length..];
      calls := calls + [Frame(kind, payload)];
    }

    /** The whole loop when nothing else runs in between: it delivers every complete frame of the
        buffer, in order, and keeps the incomplete rest. */
    method Process()
      requires !isProcessing && settled == |calls|
      modifies this
      ensures !isProcessing && settled == |calls|
      ensures Decoded(calls, buffer) ==
              Decoded(old(calls) + Decode(old(buffer)).frames, Decode(old(buffer)).rest)
    {
      hide Take;
      isProcessing := true;
      PassDelivers(View());
      RunToAwait();
      while isProcessing
        invariant isProcessing ==> |calls| == settled + 1
        invariant !isProcessing ==> |calls| == settled && Take(buffer).Incomplete?
        invariant calls + Decode(buffer).frames == old(calls) + Decode(old(buffer)).frames
        invariant Decode(buffer).rest == Decode(old(buffer)).rest
        decreases isProcessing, |buffer|
      {
        hide Take, Decode;
        PassDelivers(View().(settled := settled + 1));
        CallbackSettled();
      }
    }
  }
}
