/** The wire format both ends of the agent-to-worker link agree on:
    [1 byte type][4 bytes length, big endian][payload]. */
module Frames {

  type byte = b: int | 0 <= b < 256

  const HEADER_SIZE: nat := 5
  const U32_RANGE: nat := 0x1_0000_0000

  // Frame types. Alert (0x06) is only in the code, not in the header comment of the receiver.
  const AUTH: byte := 1
  const DATA: byte := 2
  const PING: byte := 3
  const AUTH_RESPONSE: byte := 4
  const PONG: byte := 5
  const ALERT: byte := 6

  datatype Frame = Frame(kind: byte, payload: seq<byte>)

  // The writer converts the payload length to 32 bits before it writes it, so it wraps.
  function PutU32(n: nat): (b: seq<byte>) {
    var w := n % U32_RANGE;
    [w / 0x100_0000, w / 0x1_0000 % 0x100, w / 0x100 % 0x100, w % 0x100]
  }

  function GetU32(b: seq<byte>): (n: nat)
    requires |b| == 4
  {
    b[0] as int * 0x100_0000 + b[1] as int * 0x1_0000 + b[2] as int * 0x100 + b[3] as int
  }

  lemma U32RoundTrip(n: nat)
    ensures GetU32(PutU32(n)) == n % U32_RANGE
  {
    var w := n % U32_RANGE;
    assert w / 0x1_0000 == (w / 0x100_0000) * 0x100 + w / 0x1_0000 % 0x100;
    assert w / 0x100 == (w / 0x1_0000) * 0x100 + w / 0x100 % 0x100;
  }

  lemma DropBytes(high: nat, low: nat)
    ensures low < 0x100 ==> (high * 0x100 + low) / 0x100 == high && (high * 0x100 + low) % 0x100 == low
    ensures low < 0x1_0000 ==> (high * 0x1_0000 + low) / 0x1_0000 == high
    ensures low < 0x100_0000 ==> (high * 0x100_0000 + low) / 0x100_0000 == high
  {
  }

  lemma PutSmall(n: nat)
    requires n < U32_RANGE
    ensures PutU32(n) == [n / 0x100_0000, n / 0x1_0000 % 0x100, n / 0x100 % 0x100, n % 0x100]
  {
  }

  lemma DigitsOfU32(b0: nat, b1: nat, b2: nat, b3: nat)
    requires b0 < 0x100 && b1 < 0x100 && b2 < 0x100 && b3 < 0x100
    ensures var n := b0 * 0x100_0000 + b1 * 0x1_0000 + b2 * 0x100 + b3;
            n < U32_RANGE && PutU32(n) == [b0, b1, b2, b3]
  {
    var n := b0 * 0x100_0000 + b1 * 0x1_0000 + b2 * 0x100 + b3;
    hide PutU32;
    PutSmall(n);
    DropBytes(b0, b1 * 0x1_0000 + b2 * 0x100 + b3);
    DropBytes(b0 * 0x100 + b1, b2 * 0x100 + b3);
    DropBytes(b0 * 0x1_0000 + b1 * 0x100 + b2, b3);
    DropBytes(b0, b1);
    DropBytes(b0 * 0x100 + b1, b2);
  }

  lemma U32Unique(b: seq<byte>)
    requires |b| == 4
    ensures GetU32(b) < U32_RANGE && PutU32(GetU32(b)) == b
  {
    hide PutU32;
    DigitsOfU32(b[0] as nat, b[1] as nat, b[2] as nat, b[3] as nat);
    assert b == [b[0], b[1], b[2], b[3]];
  }

  function Header(f: Frame): seq<byte> {
    [f.kind] + PutU32(|f.payload|)
  }

  function Encode(f: Frame): seq<byte> {
    Header(f) + f.payload
  }

  function EncodeAll(fs: seq<Frame>): seq<byte> {
    if fs == [] then [] else EncodeAll(fs[..|fs| - 1]) + Encode(fs[|fs| - 1])
  }

  // The length field is only right for payloads under 2^32 bytes.
  predicate Fits(f: Frame) {
    |f.payload| < U32_RANGE
  }

  predicate AllFit(fs: seq<Frame>) {
    forall i :: 0 <= i < |fs| ==> Fits(fs[i])
  }

  datatype Taken = Incomplete | Took(frame: Frame, rest: seq<byte>)

  // One attempt to cut a frame off the front of a buffer.
  function Take(buffer: seq<byte>): (t: Taken)
    ensures t.Took? ==> |t.rest| < |buffer|
  {
    if |buffer| < HEADER_SIZE then Incomplete
    else
      var length := GetU32(buffer[1..5]);
      if |buffer| < HEADER_SIZE + length then Incomplete
      else Took(Frame(buffer[0], buffer[5..5 + length]), buffer[5 + length..])
  }

  datatype Decoded = Decoded(frames: seq<Frame>, rest: seq<byte>)

  // What a byte stream means: every complete frame from the front, and the incomplete rest.
  function Decode(buffer: seq<byte>): Decoded
    decreases |buffer|
  {
    match Take(buffer)
    case Incomplete => Decoded([], buffer)
    case Took(f, rest) =>
      var d := Decode(rest);
      Decoded([f] + d.frames, d.rest)
  }

  // ---- One frame ----

  lemma TakeEncoded(f: Frame, rest: seq<byte>)
    requires Fits(f)
    ensures Take(Encode(f) + rest) == Took(f, rest)
  {
    var b := Encode(f) + rest;
    assert b[1..5] == PutU32(|f.payload|);
    U32RoundTrip(|f.payload|);
    assert b[5..5 + |f.payload|] == f.payload;
    assert b[5 + |f.payload|..] == rest;
  }

  /** Reading back what was written gives the same frame exactly when its length fits the field. */
  lemma EncodeInvertibleIff(f: Frame)
    ensures Take(Encode(f)) == Took(f, []) <==> Fits(f)
  {
    if Fits(f) {
      TakeEncoded(f, []);
      assert Encode(f) + [] == Encode(f);
    } else {
      U32Unique(Encode(f)[1..5]);
    }
  }

  /** A cut frame followed by what is left is the buffer, byte for byte. */
  lemma TakeIsEncoded(buffer: seq<byte>)
    requires Take(buffer).Took?
    ensures Fits(Take(buffer).frame)
    ensures Encode(Take(buffer).frame) + Take(buffer).rest == buffer
  {
    var Took(f, rest) := Take(buffer);
    var end := HEADER_SIZE + |f.payload|;
    U32Unique(buffer[1..5]);
    hide GetU32, PutU32;
    assert Header(f) == [buffer[0]] + buffer[1..5] == buffer[..5];
    assert buffer == buffer[..5] + buffer[5..end] + buffer[end..];
  }

  /** The bytes themselves: type, length with the highest byte first, payload; and the six types. */
  lemma BytesOnTheWire(f: Frame)
    ensures Fits(f) ==>
              var e := Encode(f);
              && |e| == 5 + |f.payload| && e[0] == f.kind && e[5..] == f.payload
              && e[1] as int * 16777216 + e[2] as int * 65536 + e[3] as int * 256 + e[4] as int == |f.payload|
    ensures Encode(Frame(PING, [])) == [3, 0, 0, 0, 0] && Encode(Frame(PONG, [])) == [5, 0, 0, 0, 0]
    ensures forall status: byte :: Encode(Frame(AUTH_RESPONSE, [status])) == [4, 0, 0, 0, 1, status]
    ensures AUTH == 1 && DATA == 2 && ALERT == 6
  {
    if Fits(f) { U32RoundTrip(|f.payload|); }
    assert PutU32(0) == [0, 0, 0, 0] && PutU32(1) == [0, 0, 0, 1];
  }

  // ---- Streams of frames ----

  lemma ConcatAssoc<T>(a: seq<T>, b: seq<T>, c: seq<T>)
    ensures (a + b) + c == a + (b + c)
  {
  }

  lemma EncodeAllSnoc(fs: seq<Frame>, f: Frame)
    ensures EncodeAll(fs + [f]) == EncodeAll(fs) + Encode(f)
  {
    assert (fs + [f])[..|fs|] == fs;
  }

  lemma {:induction false} EncodeAllConcat(fs: seq<Frame>, gs: seq<Frame>)
    ensures EncodeAll(fs + gs) == EncodeAll(fs) + EncodeAll(gs)
  {
    hide Encode;
    if gs == [] {
      assert fs + gs == fs;
    } else {
      var init, last := gs[..|gs| - 1], gs[|gs| - 1];
      assert fs + gs == (fs + init) + [last];
      calc {
        EncodeAll(fs + gs);
        { EncodeAllSnoc(fs + init, last); }
        EncodeAll(fs + init) + Encode(last);
        { EncodeAllConcat(fs, init); }
        EncodeAll(fs) + EncodeAll(init) + Encode(last);
        { ConcatAssoc(EncodeAll(fs), EncodeAll(init), Encode(last)); }
        EncodeAll(fs) + EncodeAll(gs);
      }
    }
  }

  lemma EncodeAllCons(f: Frame, fs: seq<Frame>)
    ensures EncodeAll([f] + fs) == Encode(f) + EncodeAll(fs)
  {
    EncodeAllConcat([f], fs);
    EncodeAllSnoc([], f);
    assert [] + [f] == [f];
  }

  /** Decoding loses nothing: the frames, re-encoded, and the rest are the stream. */
  lemma {:induction false} DecodeIsExact(buffer: seq<byte>)
    ensures AllFit(Decode(buffer).frames)
    ensures EncodeAll(Decode(buffer).frames) + Decode(buffer).rest == buffer
    ensures Take(Decode(buffer).rest).Incomplete?
    decreases |buffer|
  {
    hide Encode, Take;
    if Take(buffer).Took? {
      var Took(f, rest) := Take(buffer);
      TakeIsEncoded(buffer);
      DecodeIsExact(rest);
      EncodeAllCons(f, Decode(rest).frames);
      ConcatAssoc(Encode(f), EncodeAll(Decode(rest).frames), Decode(rest).rest);
    }
  }

  /** Decode inverts EncodeAll in front of any further bytes. */
  lemma {:induction false} DecodeEncoded(fs: seq<Frame>, rest: seq<byte>)
    requires AllFit(fs)
    ensures Decode(EncodeAll(fs) + rest) == Decoded(fs + Decode(rest).frames, Decode(rest).rest)
    decreases |fs|
  {
    hide Encode, Take;
    if fs == [] {
      assert EncodeAll(fs) + rest == rest;
      assert fs + Decode(rest).frames == Decode(rest).frames;
    } else {
      var f, tail := fs[0], fs[1..];
      assert fs == [f] + tail;
      EncodeAllCons(f, tail);
      assert EncodeAll(fs) + rest == Encode(f) + (EncodeAll(tail) + rest);
      TakeEncoded(f, EncodeAll(tail) + rest);
      DecodeEncoded(tail, rest);
      assert [f] + (tail + Decode(rest).frames) == fs + Decode(rest).frames;
    }
  }

  /** Encoding determines the frames. */
  lemma DecodeAll(fs: seq<Frame>)
    requires AllFit(fs)
    ensures Decode(EncodeAll(fs)) == Decoded(fs, [])
  {
    DecodeEncoded(fs, []);
    assert EncodeAll(fs) + [] == EncodeAll(fs);
    assert fs + Decode([]).frames == fs;
  }

  /** A prefix of an encoded stream decodes to a prefix of the frames that were written. */
  lemma DecodePrefix(sent: seq<byte>, fs: seq<Frame>)
    requires AllFit(fs)
    requires sent <= EncodeAll(fs)
    ensures Decode(sent).frames <= fs
  {
    hide Encode, Take;
    var d := Decode(sent);
    DecodeIsExact(sent);
    var tail := EncodeAll(fs)[|sent|..];
    assert EncodeAll(fs) == sent + tail;
    ConcatAssoc(EncodeAll(d.frames), d.rest, tail);
    DecodeEncoded(d.frames, d.rest + tail);
    DecodeAll(fs);
  }
}
