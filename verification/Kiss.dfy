/** The KISS TNC byte stream (Chepponis and Karn, "Asynchronous Frame Format" and
    "Transparency"): the incremental unescaper that reads it, the encoder it must
    undo, and what arbitrary line noise does to it. */
module Kiss {
  import opened Basics

  const FEND: byte := 0xC0
  const FESC: byte := 0xDB
  const TFEND: byte := 0xDC
  const TFESC: byte := 0xDD

  /** What the decoder carries from one byte to the next. */
  datatype State = State(buf: seq<byte>, inFrame: bool, esc: bool)

  /** One byte: the next state and the frames (none or one) it completes. */
  function FeedByte(s: State, b: byte): (State, seq<seq<byte>>) {
    if !s.inFrame then
      (if b == FEND then State([], true, false) else s, [])
    else if s.esc then
      (State(s.buf + [if b == TFEND then FEND else if b == TFESC then FESC else b], true, false), [])
    else if b == FESC then
      (s.(esc := true), [])
    else if b == FEND then
      (s.(buf := []), if s.buf == [] then [] else [s.buf])
    else
      (s.(buf := s.buf + [b]), [])
  }

  /** A whole chunk of bytes, last byte last. */
  function FeedAll(s: State, data: seq<byte>): (State, seq<seq<byte>>) {
    if data == [] then (s, [])
    else
      var before := FeedAll(s, data[..|data| - 1]);
      var last := FeedByte(before.0, data[|data| - 1]);
      (last.0, before.1 + last.1)
  }

  /** The decoder object: three fields updated byte by byte. */
  class KissDecoder {
    var buf: seq<byte>
    var inFrame: bool
    var esc: bool

    ghost function View(): State
      reads this
    {
      State(buf, inFrame, esc)
    }

    constructor ()
      ensures View() == State([], false, false)
    {
      buf, inFrame, esc := [], false, false;
    }

    method Feed(data: seq<byte>) returns (frames: seq<seq<byte>>)
      modifies this
      ensures (View(), frames) == FeedAll(old(View()), data)
    {
      frames := [];
      for i := 0 to |data|
        invariant (View(), frames) == FeedAll(old(View()), data[..i])
      {
        var b := data[i];
        assert data[..i + 1][..i] == data[..i];
        ghost var before := frames;
        if !inFrame {
          if b == FEND {
            inFrame := true;
            buf := [];
            esc := false;
          }
        } else if esc {
          if b == TFEND {
            buf := buf + [FEND];
          } else if b == TFESC {
            buf := buf + [FESC];
          } else {
            buf := buf + [b];
          }
          esc := false;
        } else if b == FESC {
          esc := true;
        } else if b == FEND {
          if buf != [] {
            frames := frames + [buf];
          }
          buf := [];
        } else {
          buf := buf + [b];
        }
        assert before + [] == before;
      }
      assert data[..|data|] == data;
    }
  }

  // ----- Chunking never matters -----

  /** Feeding a then b is feeding a + b: same frames, same final state. */
  lemma {:induction false} FeedConcat(s: State, a: seq<byte>, b: seq<byte>)
    ensures FeedAll(s, a + b).0 == FeedAll(FeedAll(s, a).0, b).0
    ensures FeedAll(s, a + b).1 == FeedAll(s, a).1 + FeedAll(FeedAll(s, a).0, b).1
  {
    if b == [] {
      assert a + b == a;
    } else {
      var n := |a + b| - 1;
      assert (a + b)[..n] == a + b[..|b| - 1];
      assert (a + b)[n] == b[|b| - 1];
      FeedConcat(s, a, b[..|b| - 1]);
    }
  }

  /** The frames and final state of a stream that arrives as a list of chunks. */
  function FeedChunks(s: State, chunks: seq<seq<byte>>): (State, seq<seq<byte>>)
    decreases chunks
  {
    if chunks == [] then (s, [])
    else
      var first := FeedAll(s, chunks[0]);
      var rest := FeedChunks(first.0, chunks[1..]);
      (rest.0, first.1 + rest.1)
  }

  /** However a byte stream is cut into chunks, the decoder sees the same thing. */
  lemma {:induction false} ChunkingIrrelevant(s: State, chunks: seq<seq<byte>>)
    ensures FeedChunks(s, chunks) == FeedAll(s, Flatten(chunks))
    decreases chunks
  {
    if chunks != [] {
      ChunkingIrrelevant(FeedAll(s, chunks[0]).0, chunks[1..]);
      FeedConcat(s, chunks[0], Flatten(chunks[1..]));
    }
  }

  // ----- The encoder, and the decoder that undoes it -----

  function EscapeByte(b: byte): seq<byte> {
    if b == FEND then [FESC, TFEND]
    else if b == FESC then [FESC, TFESC]
    else [b]
  }

  function Escape(payload: seq<byte>): seq<byte> {
    if payload == [] then []
    else EscapeByte(payload[0]) + Escape(payload[1..])
  }

  /** One KISS frame on the wire. */
  function Encode(payload: seq<byte>): seq<byte> {
    [FEND] + Escape(payload) + [FEND]
  }

  lemma FeedOne(s: State, b: byte)
    ensures FeedAll(s, [b]) == FeedByte(s, b)
  {
    assert [b][..0] == [];
    assert [] + FeedByte(s, b).1 == FeedByte(s, b).1;
  }

  lemma FeedEscapedByte(s: State, b: byte)
    requires s.inFrame && !s.esc
    ensures FeedAll(s, EscapeByte(b)) == (s.(buf := s.buf + [b]), [])
  {
    if b == FEND || b == FESC {
      var t := if b == FEND then TFEND else TFESC;
      assert EscapeByte(b) == [FESC] + [t];
      FeedConcat(s, [FESC], [t]);
      FeedOne(s, FESC);
      FeedOne(s.(esc := true), t);
    } else {
      FeedOne(s, b);
    }
  }

  /** Two stretches in a row: the second goes on where the first ended. */
  lemma Join(s: State, a: seq<byte>, t: State, before: seq<seq<byte>>, b: seq<byte>, u: State, after: seq<seq<byte>>)
    requires FeedAll(s, a) == (t, before) && FeedAll(t, b) == (u, after)
    ensures FeedAll(s, a + b) == (u, before + after)
  {
    FeedConcat(s, a, b);
  }

  lemma {:induction false} FeedEscaped(s: State, payload: seq<byte>)
    requires s.inFrame && !s.esc
    ensures FeedAll(s, Escape(payload)) == (s.(buf := s.buf + payload), [])
    decreases payload
  {
    if payload == [] {
      assert s.buf + payload == s.buf;
    } else {
      var next, last := s.(buf := s.buf + [payload[0]]), s.(buf := s.buf + payload);
      assert next.buf + payload[1..] == last.buf;
      FeedEscapedByte(s, payload[0]);
      FeedEscaped(next, payload[1..]);
      Join(s, EscapeByte(payload[0]), next, [], Escape(payload[1..]), last, []);
    }
  }

  /** In the middle of an escape: the next FEND is data, not a delimiter. */
  predicate MidEscape(s: State) { s.inFrame && s.esc }

  /** What comes out between any state and the end of one well-formed frame. */
  function FramesOf(s: State, payload: seq<byte>): seq<seq<byte>> {
    if MidEscape(s) then [s.buf + [FEND] + payload]
    else if s.inFrame && s.buf != [] then [s.buf, payload]
    else [payload]
  }

  lemma Delimited(s: State, payload: seq<byte>)
    requires payload != []
    ensures var (open, junk) := FeedByte(s, FEND);
            var full := open.(buf := open.buf + payload);
            open.inFrame && !open.esc && FeedByte(full, FEND).0 == State([], true, false) &&
            junk + FeedByte(full, FEND).1 == FramesOf(s, payload)
  {
    assert [] + payload == payload;
  }

  /** What any state, however it was reached, makes of one well-formed frame.
      Junk collected since the last FEND comes out as a frame of its own, and
      the frame itself comes out intact, unless the decoder is mid-escape: then
      the opening FEND is swallowed and junk and frame come out glued together. */
  lemma FeedFrame(s: State, payload: seq<byte>)
    requires payload != []
    ensures FeedAll(s, Encode(payload)) == (State([], true, false), FramesOf(s, payload))
  {
    var (open, junk) := FeedByte(s, FEND);
    var full := open.(buf := open.buf + payload);
    Delimited(s, payload);
    FeedOne(s, FEND);
    FeedEscaped(open, payload);
    FeedOne(full, FEND);
    JoinThree(s, [FEND], open, junk, Escape(payload), full, [FEND], State([], true, false), FeedByte(full, FEND).1);
  }

  lemma JoinThree(
    s: State, a: seq<byte>, t: State, before: seq<seq<byte>>, b: seq<byte>, u: State,
    c: seq<byte>, v: State, after: seq<seq<byte>>)
    requires FeedAll(s, a) == (t, before) && FeedAll(t, b) == (u, []) && FeedAll(u, c) == (v, after)
    ensures FeedAll(s, a + b + c) == (v, before + after)
  {
    Join(s, a, t, before, b, u, []);
    assert before + [] == before;
    Join(s, a + b, u, before, c, v, after);
  }

  /** After arbitrary noise the next well-formed frame is delivered exactly when
      the noise did not leave the decoder in the middle of an escape. */
  lemma ResynchronisesIffNotMidEscape(start: State, noise: seq<byte>, payload: seq<byte>)
    requires payload != []
    ensures var frames := FeedAll(start, noise + Encode(payload)).1;
            frames != [] && (frames[|frames| - 1] == payload <==> !MidEscape(FeedAll(start, noise).0))
  {
    var s := FeedAll(start, noise).0;
    FeedConcat(start, noise, Encode(payload));
    FeedFrame(s, payload);
    if MidEscape(s) {
      assert |s.buf + [FEND] + payload| > |payload|;
    }
  }

  /** Before the first delimiter nothing is collected. */
  lemma {:induction false} NothingBeforeFirstFrame(s: State, noise: seq<byte>)
    requires !s.inFrame && FEND !in noise
    ensures FeedAll(s, noise) == (s, [])
    decreases noise
  {
    if noise != [] {
      var n := |noise| - 1;
      NothingBeforeFirstFrame(s, noise[..n]);
      assert noise[n] in noise && noise[..n] + [noise[n]] == noise;
      assert [] + FeedByte(s, noise[n]).1 == FeedByte(s, noise[n]).1;
    }
  }

  /** An escape in front of a byte that needs none, or that is itself special, makes
      that byte data: as if it had been escaped as the protocol asks. */
  lemma StrayEscapeIsData(s: State, a: seq<byte>, b: byte, c: seq<byte>)
    requires var t := FeedAll(s, a).0; t.inFrame && !t.esc
    requires b != TFEND && b != TFESC
    ensures FeedAll(s, a + [FESC, b] + c) == FeedAll(s, a + EscapeByte(b) + c)
  {
    var t := FeedAll(s, a).0;
    assert [FESC, b] == [FESC] + [b];
    FeedConcat(t, [FESC], [b]);
    FeedOne(t, FESC);
    FeedOne(t.(esc := true), b);
    FeedEscapedByte(t, b);
    SameMiddle(s, a, [FESC, b], EscapeByte(b), c);
  }

  /** Two stretches a decoder cannot tell apart where they stand. */
  lemma SameMiddle(s: State, a: seq<byte>, x: seq<byte>, y: seq<byte>, c: seq<byte>)
    requires FeedAll(FeedAll(s, a).0, x) == FeedAll(FeedAll(s, a).0, y)
    ensures FeedAll(s, a + x + c) == FeedAll(s, a + y + c)
  {
    FeedConcat(s, a, x);
    FeedConcat(s, a, y);
    FeedConcat(s, a + x, c);
    FeedConcat(s, a + y, c);
  }

  function EncodeAll(payloads: seq<seq<byte>>): seq<byte> {
    if payloads == [] then [] else Encode(payloads[0]) + EncodeAll(payloads[1..])
  }

  /** Nothing pending: what a fresh decoder is, and what every frame restores. */
  predicate BetweenFrames(s: State) { !s.inFrame || (s.buf == [] && !s.esc) }

  /** A stream of frames, cut anywhere, is decoded to exactly its payloads. */
  lemma {:induction false} DecodeUndoesEncode(s: State, payloads: seq<seq<byte>>, chunks: seq<seq<byte>>)
    requires BetweenFrames(s)
    requires forall i :: 0 <= i < |payloads| ==> payloads[i] != []
    requires Flatten(chunks) == EncodeAll(payloads)
    ensures FeedChunks(s, chunks).1 == payloads
    ensures BetweenFrames(FeedChunks(s, chunks).0)
  {
    ChunkingIrrelevant(s, chunks);
    DecodeStream(s, payloads);
  }

  lemma {:induction false} DecodeStream(s: State, payloads: seq<seq<byte>>)
    requires BetweenFrames(s)
    requires forall i :: 0 <= i < |payloads| ==> payloads[i] != []
    ensures FeedAll(s, EncodeAll(payloads)) == (if payloads == [] then s else State([], true, false), payloads)
    decreases payloads
  {
    if payloads != [] {
      var first, rest, next := payloads[0], payloads[1..], State([], true, false);
      FeedFrame(s, first);
      DecodeStream(next, rest);
      Join(s, Encode(first), next, [first], EncodeAll(rest), next, rest);
      assert [first] + rest == payloads;
    }
  }

  lemma DecodeOne(s: State, payload: seq<byte>, chunks: seq<seq<byte>>)
    requires BetweenFrames(s) && payload != []
    requires Flatten(chunks) == Encode(payload)
    ensures FeedChunks(s, chunks).1 == [payload]
  {
    ChunkingIrrelevant(s, chunks);
    FeedFrame(s, payload);
  }
}
