/** From the collectors' lines to the worker's records: reading lines, batching them, packing a
    batch (join, gzip, AES-GCM) and unpacking it again. Compression, encryption and JSON are
    oracles with the laws that make them what they are. */
module BatchCodec {
  import opened Shared
  import opened Frames
  import opened Lines
  import WorkerSessions

  type Record = WorkerSessions.Record

  const NONCE_SIZE := 12
  const TAG_SIZE := 16
  const AES_256_KEY_SIZE := 32

  // accepts: json.Unmarshal into an AgentMessage succeeds on the agent; parse: JSON.parse on the
  // worker, None when it throws; seal and open: AES-GCM without additional data.
  datatype Codecs = Codecs(
    gzip: string -> seq<byte>,
    gunzip: seq<byte> -> Option<string>,
    seal: (Key, seq<byte>, seq<byte>) -> seq<byte>,
    open: (Key, seq<byte>, seq<byte>, seq<byte>) -> Option<seq<byte>>,
    accepts: string -> bool,
    parse: string -> Option<Record>)

  // RFC 1952 and NIST SP 800-38D, section 7, for the calls made here; and what is JSON for the
  // agent is JSON, not blank, for the worker, with or without the blanks around it.
  ghost predicate Laws(c: Codecs) {
    && (forall s :: c.gunzip(c.gzip(s)) == Some(s))
    && (forall k, n, p :: |k| == 32 && |n| == 12 ==>
          var sealed := c.seal(k, n, p);
          |sealed| == |p| + 16 && c.open(k, n, sealed[..|p|], sealed[|p|..]) == Some(p))
    && (forall m :: c.accepts(m) ==> c.parse(m).Some? && c.parse(Trim(m)) == c.parse(m) && Trim(m) != "")
  }

  // ---- Packing ----

  // sendBatch up to the connection: None when the key is no AES key.
  function Pack(c: Codecs, key: Key, nonce: seq<byte>, batch: seq<string>): Option<seq<byte>> {
    if |key| != 16 && |key| != 24 && |key| != 32 then None
    else Some(nonce + c.seal(key, nonce, c.gzip(Join(batch))))
  }

  // ---- Unpacking ----

  function ParseAll(c: Codecs, texts: seq<string>): Option<seq<Record>> {
    if texts == [] then Some([])
    else
      match c.parse(texts[0])
      case None => None
      case Some(r) =>
        match ParseAll(c, texts[1..])
        case None => None
        case Some(rs) => Some([r] + rs)
  }

  // decryptAgentPayload, from the buffer to the text; None is null.
  function Opened(c: Codecs, buffer: seq<byte>, key: Key): Option<string> {
    if |buffer| < NONCE_SIZE + TAG_SIZE || |key| != AES_256_KEY_SIZE then None
    else
      var cut := |buffer| - TAG_SIZE;
      match c.open(key, buffer[..NONCE_SIZE], buffer[NONCE_SIZE..cut], buffer[cut..])
      case None => None
      case Some(compressed) => c.gunzip(compressed)
  }

  function Unpack(c: Codecs, buffer: seq<byte>, key: Key): Option<seq<Record>> {
    match Opened(c, buffer, key)
    case None => None
    case Some(raw) => if Trim(raw) == "" then Some([]) else ParseAll(c, Texts(Split(Trim(raw))))
  }

  // The records parsed so far, in front of those of the remaining lines.
  function Prefixed(done: seq<Record>, rest: Option<seq<Record>>): Option<seq<Record>> {
    match rest case None => None case Some(rs) => Some(done + rs)
  }

  lemma PrefixedLine(c: Codecs, done: seq<Record>, lines: seq<string>)
    requires lines != []
    ensures var text, rest := Trim(lines[0]), ParseAll(c, Texts(lines[1..]));
            Prefixed(done, ParseAll(c, Texts(lines))) ==
            if text == "" then Prefixed(done, rest)
            else match c.parse(text) case None => None case Some(r) => Prefixed(done + [r], rest)
  {
    hide Trim;
    var later := Texts(lines[1..]);
    if Trim(lines[0]) == "" {
      assert Texts(lines) == later;
    } else {
      assert Texts(lines)[1..] == later;
      if c.parse(Trim(lines[0])).Some? && ParseAll(c, later).Some? {
        ConcatAssoc(done, [c.parse(Trim(lines[0])).value], ParseAll(c, later).value);
      }
    }
  }

  lemma NothingParsed(c: Codecs, rest: Option<seq<Record>>)
    ensures Prefixed([], rest) == rest && ParseAll(c, Texts([])) == Some([])
  {
    if rest.Some? { assert [] + rest.value == rest.value; }
  }

  /** The receiver's own form: slice the buffer, then a loop over the lines that gives up on the
      first line that is not JSON. */
  method DecryptAgentPayload(c: Codecs, buffer: seq<byte>, key: Key) returns (records: Option<seq<Record>>)
    ensures records == Unpack(c, buffer, key)
  {
    hide Trim, Opened, Texts, ParseAll, Split;
    var raw := Opened(c, buffer, key);
    if raw.None? {
      return None;
    }
    var text := Trim(raw.value);
    if text == "" {
      return Some([]);
    }
    var lines := Split(text);
    var parsed: seq<Record> := [];
    var i := 0;
    ghost var all := ParseAll(c, Texts(lines));
    NothingParsed(c, all);
    assert lines[0..] == lines;
    while i < |lines|
      invariant 0 <= i <= |lines|
      invariant all == Prefixed(parsed, ParseAll(c, Texts(lines[i..])))
    {
      var trimmed := Trim(lines[i]);
      PrefixedLine(c, parsed, lines[i..]);
      assert lines[i..][1..] == lines[i + 1..] && lines[i..][0] == lines[i];
      if trimmed != "" {
        var record := c.parse(trimmed);
        if record.None? {
          return None;
        }
        parsed := parsed + [record.value];
      }
      i := i + 1;
    }
    assert lines[i..] == [] && parsed + [] == parsed;
    return Some(parsed);
  }

  lemma {:induction false} ParsedAllOrNothing(c: Codecs, lines: seq<string>)
    ensures ParseAll(c, Texts(lines)).Some? <==>
            forall i :: 0 <= i < |lines| && Trim(lines[i]) != "" ==> c.parse(Trim(lines[i])).Some?
  {
    hide Trim;
    if lines != [] {
      var rest := lines[1..];
      ParsedAllOrNothing(c, rest);
      PrefixedLine(c, [], lines);
      NothingParsed(c, ParseAll(c, Texts(lines)));
      NothingParsed(c, ParseAll(c, Texts(rest)));
      hide ParseAll, Texts;
      forall i | 0 < i < |lines| ensures lines[i] == rest[i - 1] {
      }
      forall i | 0 <= i < |rest| ensures rest[i] == lines[i + 1] {
      }
    }
  }

  /** When a payload is taken: it is long enough, the key is an AES-256 key, the tag fits the first 12
      bytes and what lies between, that decompresses, and every line that is not blank is JSON. One bad
      line costs the whole batch. */
  lemma UnpackSucceedsIff(c: Codecs, buffer: seq<byte>, key: Key)
    ensures Unpack(c, buffer, key).Some? <==>
            && |buffer| >= 28 && |key| == 32
            && var plain := c.open(key, buffer[..12], buffer[12..|buffer| - 16], buffer[|buffer| - 16..]);
               && plain.Some? && c.gunzip(plain.value).Some?
               && var lines := Split(Trim(c.gunzip(plain.value).value));
                  forall i :: 0 <= i < |lines| && Trim(lines[i]) != "" ==> c.parse(Trim(lines[i])).Some?
  {
    hide Trim, ParseAll, Texts, Split, Opened;
    OpenedMeans(c, buffer, key);
    var raw := Opened(c, buffer, key);
    if raw.Some? {
      TextParsesIff(c, Trim(raw.value));
    }
  }

  lemma TextParsesIff(c: Codecs, text: string)
    ensures (text == "" || ParseAll(c, Texts(Split(text))).Some?) <==>
            forall i :: 0 <= i < |Split(text)| && Trim(Split(text)[i]) != "" ==> c.parse(Trim(Split(text)[i])).Some?
  {
    ParsedAllOrNothing(c, Split(text));
    if text == "" {
      assert Split(text) == [""] && Trim("") == "";
    }
  }

  lemma OpenedMeans(c: Codecs, buffer: seq<byte>, key: Key)
    ensures var raw := Opened(c, buffer, key);
            if |buffer| < 28 || |key| != 32 then raw.None?
            else
              var plain := c.open(key, buffer[..12], buffer[12..|buffer| - 16], buffer[|buffer| - 16..]);
              raw == if plain.None? then None else c.gunzip(plain.value)
  {
  }

  // ---- Round trip of one batch ----

  predicate Sendable(c: Codecs, m: string) {
    OneLine(m) && c.accepts(m)
  }

  predicate AllSendable(c: Codecs, batch: seq<string>) {
    forall i :: 0 <= i < |batch| ==> Sendable(c, batch[i])
  }

  // What the messages say: the parsed messages, in order.
  function Meaning(c: Codecs, batch: seq<string>): seq<Record>
    requires forall i :: 0 <= i < |batch| ==> c.parse(batch[i]).Some?
  {
    if batch == [] then [] else [c.parse(batch[0]).value] + Meaning(c, batch[1..])
  }

  lemma {:induction false} ParsedLinesAreTheMessages(c: Codecs, batch: seq<string>)
    requires Laws(c) && AllSendable(c, batch)
    ensures ParseAll(c, TrimEach(batch)) == Some(Meaning(c, batch))
  {
    hide Trim;
    if batch != [] {
      ParsedLinesAreTheMessages(c, batch[1..]);
      assert TrimEach(batch)[1..] == TrimEach(batch[1..]);
    }
  }

  lemma OpensWhatWasPacked(c: Codecs, key: Key, nonce: seq<byte>, batch: seq<string>)
    requires Laws(c) && |key| == 32 && |nonce| == 12
    ensures Pack(c, key, nonce, batch).Some?
    ensures Opened(c, Pack(c, key, nonce, batch).value, key) == Some(Join(batch))
  {
    hide Join, Trim;
    var compressed := c.gzip(Join(batch));
    var sealed := c.seal(key, nonce, compressed);
    var buffer := nonce + sealed;
    var cut := |buffer| - TAG_SIZE;
    assert buffer[..NONCE_SIZE] == nonce;
    assert buffer[NONCE_SIZE..cut] == sealed[..|compressed|] && buffer[cut..] == sealed[|compressed|..];
  }

  /** A batch is packed, and sent, exactly with an AES key of one of the three sizes; the worker takes it
      only with the largest. */
  lemma PackNeedsAesKey(c: Codecs, key: Key, nonce: seq<byte>, batch: seq<string>)
    ensures Pack(c, key, nonce, batch).Some? <==> |key| in {16, 24, 32}
    ensures Unpack(c, nonce, key).Some? ==> |key| == 32
  {
    hide Join;
  }

  /** The worker gets back exactly the records of the batch, in order: none split, merged, lost or
      repeated, whatever blanks the messages carry. */
  lemma BatchRoundTrip(c: Codecs, key: Key, nonce: seq<byte>, batch: seq<string>)
    requires Laws(c) && |key| == 32 && |nonce| == 12
    requires AllSendable(c, batch)
    ensures Pack(c, key, nonce, batch).Some?
    ensures Unpack(c, Pack(c, key, nonce, batch).value, key) == Some(Meaning(c, batch))
  {
    hide Join, Trim, Opened, Pack;
    OpensWhatWasPacked(c, key, nonce, batch);
    forall i | 0 <= i < |batch| ensures OneLine(batch[i]) && Trim(batch[i]) != "" {
      assert Sendable(c, batch[i]);
    }
    SplitJoined(batch);
    TextsOfTrimmed(Join(batch));
    ParsedLinesAreTheMessages(c, batch);
    if Trim(Join(batch)) == "" {
      EmptyIsNoText();
      assert Split("") == [""];
    }
  }

  // ---- Reading the collectors' lines ----

  function DropReturn(line: string): string {
    if line != [] && line[|line| - 1] == '\r' then line[..|line| - 1] else line
  }

  // The lines of a collector's connection that are sent on.
  function Messages(c: Codecs, lines: seq<string>): seq<string> {
    if lines == [] then []
    else
      var m := DropReturn(lines[0]);
      (if m != "" && c.accepts(m) then [m] else []) + Messages(c, lines[1..])
  }

  /** Which lines are sent on: those that are accepted and not empty, as they are but without a carriage
      return at the end; the others leave no trace. */
  lemma LinesSentOn(c: Codecs, text: string, later: seq<string>)
    requires text == "" || text[|text| - 1] != '\r'
    ensures var sent := (if text != "" && c.accepts(text) then [text] else []) + Messages(c, later);
            Messages(c, [text] + later) == sent && Messages(c, [text + "\r"] + later) == sent
  {
    assert ([text] + later)[1..] == later && ([text + "\r"] + later)[1..] == later;
    assert (text + "\r")[..|text|] == text;
  }

  // A line up to and including its newline, or the rest of the stream.
  function LineEnd(s: string): (n: nat)
    ensures n <= |s| && OneLine(s[..n]) && (n < |s| ==> s[n] == '\n')
  {
    if s == [] || s[0] == '\n' then 0 else 1 + LineEnd(s[1..])
  }

  lemma CutAtNewline(s: string, n: nat)
    requires n < |s| && s[n] == '\n'
    ensures s == s[..n] + "\n" + s[n + 1..]
  {
  }

  lemma FirstLine(s: string)
    ensures var n := LineEnd(s);
            Split(s) == [s[..n]] + if n < |s| then Split(s[n + 1..]) else []
  {
    hide Split;
    var n := LineEnd(s);
    hide LineEnd;
    var line := s[..n];
    if n < |s| {
      var rest := s[n + 1..];
      CutAtNewline(s, n);
      SplitLine(line, rest);
    } else {
      assert line == s;
      LastLine(line);
      assert [line] + [] == [line];
    }
  }

  lemma MessagesOfFirst(c: Codecs, line: string, lines: seq<string>)
    ensures Messages(c, [line] + lines) ==
            (if DropReturn(line) != "" && c.accepts(DropReturn(line)) then [DropReturn(line)] else [])
            + Messages(c, lines)
  {
    assert ([line] + lines)[1..] == lines;
  }

  /** handleConnection: reads up to each newline and forwards what is JSON; a last line without a
      newline counts too. */
  method HandleConnection(c: Codecs, stream: string) returns (sent: seq<string>)
    ensures sent == Messages(c, Split(stream))
  {
    hide DropReturn, Messages, Split;
    sent := [];
    var rest := stream;
    var atEnd := false;
    NoMessages(c);
    while !atEnd
      invariant sent + Messages(c, if atEnd then [] else Split(rest)) == Messages(c, Split(stream))
      decreases !atEnd, |rest|
    {
      var n := LineEnd(rest);
      var m := DropReturn(rest[..n]);
      var later := if n < |rest| then Split(rest[n + 1..]) else [];
      FirstLine(rest);
      MessagesOfFirst(c, rest[..n], later);
      if m != "" && c.accepts(m) {
        ConcatAssoc(sent, [m], Messages(c, later));
        sent := sent + [m];
      } else {
        assert [] + Messages(c, later) == Messages(c, later);
      }
      if n == |rest| {
        atEnd := true;
      } else {
        rest := rest[n + 1..];
      }
    }
  }

  lemma NoMessages(c: Codecs)
    ensures Messages(c, []) == []
  {
  }

  lemma {:induction false} LastLine(s: string)
    requires OneLine(s)
    ensures Split(s) == [s]
  {
    if s != [] {
      LastLine(s[1..]);
      assert [s[0]] + s[1..] == s;
    }
  }

  /** Everything a collector's connection forwards can be batched: no message contains a newline. */
  lemma {:induction false} MessagesAreSendable(c: Codecs, lines: seq<string>)
    requires forall i :: 0 <= i < |lines| ==> OneLine(lines[i])
    ensures AllSendable(c, Messages(c, lines))
  {
    if lines != [] {
      MessagesAreSendable(c, lines[1..]);
    }
  }

  // ---- Batching ----

  datatype Event = Message(m: string) | Tick

  // batch: not flushed yet; flushed: the batches handed to sendBatch, in order.
  datatype Processor = Processor(batch: seq<string>, flushed: seq<seq<string>>)

  function OnEvent(p: Processor, e: Event): Processor {
    match e
    case Message(m) => p.(batch := p.batch + [m])
    case Tick => if p.batch == [] then p else Processor([], p.flushed + [p.batch])
  }

  function Run(events: seq<Event>): Processor {
    if events == [] then Processor([], [])
    else OnEvent(Run(events[..|events| - 1]), events[|events| - 1])
  }

  function Received(events: seq<Event>): seq<string> {
    if events == [] then []
    else
      Received(events[..|events| - 1]) +
      match events[|events| - 1] { case Message(m) => [m] case Tick => [] }
  }

  function Flatten<T>(parts: seq<seq<T>>): seq<T> {
    if parts == [] then [] else Flatten(parts[..|parts| - 1]) + parts[|parts| - 1]
  }

  lemma FlattenSnoc<T>(parts: seq<seq<T>>, last: seq<T>)
    ensures Flatten(parts + [last]) == Flatten(parts) + last
  {
    assert (parts + [last])[..|parts|] == parts;
  }

  /** No message is lost, repeated, split or reordered by batching, and no batch is empty. */
  lemma {:induction false} BatchesConserveMessages(events: seq<Event>)
    ensures Flatten(Run(events).flushed) + Run(events).batch == Received(events)
    ensures forall i :: 0 <= i < |Run(events).flushed| ==> Run(events).flushed[i] != []
  {
    if events != [] {
      var init, e := events[..|events| - 1], events[|events| - 1];
      var p := Run(init);
      BatchesConserveMessages(init);
      if e.Message? {
        ConcatAssoc(Flatten(p.flushed), p.batch, [e.m]);
      } else {
        FlattenSnoc(p.flushed, p.batch);
        assert Received(events) == Received(init);
        assert Flatten(Run(events).flushed) + [] == Flatten(Run(events).flushed);
      }
    }
  }

  // The messages since the last tick.
  function SinceTick(events: seq<Event>): seq<string> {
    if events == [] then []
    else
      match events[|events| - 1] {
        case Tick => []
        case Message(m) => SinceTick(events[..|events| - 1]) + [m]
      }
  }

  // The messages between ticks, where there were any.
  function Batches(events: seq<Event>): seq<seq<string>> {
    if events == [] then []
    else
      var init := events[..|events| - 1];
      Batches(init) + if events[|events| - 1].Tick? && SinceTick(init) != [] then [SinceTick(init)] else []
  }

  /** The batches are exactly the messages between one tick and the next, and a tick leaves nothing
      behind. */
  lemma {:induction false} TicksMakeBatches(events: seq<Event>)
    ensures Run(events).flushed == Batches(events) && Run(events).batch == SinceTick(events)
  {
    if events != [] {
      TicksMakeBatches(events[..|events| - 1]);
    }
  }

  // What the worker reads out of the flushed batches, each packed with its own nonce.
  function Arrived(c: Codecs, key: Key, nonces: seq<seq<byte>>, flushed: seq<seq<string>>): seq<Option<seq<Record>>>
    requires |nonces| == |flushed|
  {
    if flushed == [] then []
    else
      var n := |flushed| - 1;
      var packed := Pack(c, key, nonces[n], flushed[n]);
      Arrived(c, key, nonces[..n], flushed[..n]) + [if packed.None? then None else Unpack(c, packed.value, key)]
  }

  function Values(parts: seq<Option<seq<Record>>>): seq<Record>
    requires forall i :: 0 <= i < |parts| ==> parts[i].Some?
  {
    if parts == [] then [] else Values(parts[..|parts| - 1]) + parts[|parts| - 1].value
  }

  lemma {:induction false} MeaningConcat(c: Codecs, a: seq<string>, b: seq<string>)
    requires forall i :: 0 <= i < |a| ==> c.parse(a[i]).Some?
    requires forall i :: 0 <= i < |b| ==> c.parse(b[i]).Some?
    ensures Meaning(c, a + b) == Meaning(c, a) + Meaning(c, b)
  {
    if a == [] {
      assert a + b == b;
    } else {
      assert (a + b)[1..] == a[1..] + b;
      MeaningConcat(c, a[1..], b);
    }
  }

  lemma {:induction false} ArrivedIsMeant(c: Codecs, key: Key, nonces: seq<seq<byte>>, flushed: seq<seq<string>>)
    requires Laws(c) && |key| == 32 && |nonces| == |flushed|
    requires forall i :: 0 <= i < |nonces| ==> |nonces[i]| == 12
    requires AllSendable(c, Flatten(flushed))
    ensures |Arrived(c, key, nonces, flushed)| == |flushed|
    ensures forall i :: 0 <= i < |flushed| ==> Arrived(c, key, nonces, flushed)[i].Some?
    ensures Values(Arrived(c, key, nonces, flushed)) == Meaning(c, Flatten(flushed))
  {
    hide Laws, Sendable, Pack, Unpack;
    if flushed != [] {
      var n := |flushed| - 1;
      var init, last := flushed[..n], flushed[n];
      assert Flatten(flushed) == Flatten(init) + last;
      SendableParts(c, Flatten(init), last);
      ArrivedIsMeant(c, key, nonces[..n], init);
      BatchRoundTrip(c, key, nonces[n], last);
      SendableParse(c, Flatten(init));
      SendableParse(c, last);
      MeaningConcat(c, Flatten(init), last);
      assert Arrived(c, key, nonces, flushed)[..n] == Arrived(c, key, nonces[..n], init);
    }
  }

  lemma SendableParts(c: Codecs, a: seq<string>, b: seq<string>)
    requires AllSendable(c, a + b)
    ensures AllSendable(c, a) && AllSendable(c, b)
  {
    hide Sendable;
    forall i | 0 <= i < |a| ensures Sendable(c, a[i]) { assert (a + b)[i] == a[i]; }
    forall i | 0 <= i < |b| ensures Sendable(c, b[i]) { assert (a + b)[|a| + i] == b[i]; }
  }

  lemma SendableParse(c: Codecs, a: seq<string>)
    requires Laws(c) && AllSendable(c, a)
    ensures forall i :: 0 <= i < |a| ==> c.parse(a[i]).Some?
  {
    forall i | 0 <= i < |a| ensures c.parse(a[i]).Some? { assert Sendable(c, a[i]); }
  }

  /** From the collectors to the engine: in every run, the records unpacked from the flushed batches,
      followed by those still waiting, are the parsed messages received, in order. */
  lemma RecordsAreConserved(c: Codecs, key: Key, nonces: seq<seq<byte>>, events: seq<Event>)
    requires Laws(c) && |key| == 32 && |nonces| == |Run(events).flushed|
    requires forall i :: 0 <= i < |nonces| ==> |nonces[i]| == 12
    requires AllSendable(c, Received(events))
    ensures var p := Run(events);
            && (var arrived := Arrived(c, key, nonces, p.flushed);
                forall i :: 0 <= i < |arrived| ==> arrived[i].Some?)
            && (forall i :: 0 <= i < |p.batch| ==> c.parse(p.batch[i]).Some?)
            && (forall i :: 0 <= i < |Received(events)| ==> c.parse(Received(events)[i]).Some?)
            && Values(Arrived(c, key, nonces, p.flushed)) + Meaning(c, p.batch) == Meaning(c, Received(events))
  {
    hide Laws, Sendable, Pack, Unpack;
    var p := Run(events);
    BatchesConserveMessages(events);
    SendableParts(c, Flatten(p.flushed), p.batch);
    ArrivedIsMeant(c, key, nonces, p.flushed);
    SendableParse(c, Flatten(p.flushed));
    SendableParse(c, p.batch);
    SendableParse(c, Received(events));
    MeaningConcat(c, Flatten(p.flushed), p.batch);
  }

  /** dataProcessor's loop state. */
  class DataProcessor {
    var batch: seq<string>
    var flushed: seq<seq<string>>

    function View(): Processor
      reads this
    {
      Processor(batch, flushed)
    }

    constructor ()
      ensures View() == Processor([], [])
    {
      batch, flushed := [], [];
    }

    method OnMessage(m: string)
      modifies this
      ensures View() == OnEvent(old(View()), Message(m))
    {
      batch := batch + [m];
    }

    method OnTick()
      modifies this
      ensures View() == OnEvent(old(View()), Tick)
    {
      if |batch| > 0 {
        flushed := flushed + [batch];
        batch := [];
      }
    }
  }
}
