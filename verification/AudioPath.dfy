/** From the exporter through the wire and the hub's parser to the browser: what is
    heard of a call. */
module AudioPath {
  import opened Basics
  import Pcm
  import AE = AudioExporter
  import Hubs

  /** Text for bytes and back, base64 in the code. */
  datatype Codec = Codec(encode: seq<byte> -> string, decode: string -> seq<byte>)

  ghost predicate Sound(codec: Codec) {
    forall bytes: seq<byte> {:trigger codec.encode(bytes)} ::
      && codec.decode(codec.encode(bytes)) == bytes
      && (codec.encode(bytes) == "" <==> bytes == [])
  }

  const SAMPLE_RATE := 8000

  /** The line the exporter writes for one message, as the hub reads it. */
  function Wire(codec: Codec, m: AE.Message): Hubs.Message {
    var sends := m.pcm != [] && !m.encrypted;
    Hubs.Message(true, sends, true, m.encrypted, if sends then codec.encode(m.pcm) else "", m.end,
                 m.encrypted || m.pcm == [], SAMPLE_RATE)
  }

  /** The frames the hub publishes for these messages. */
  function Frames(codec: Codec, messages: seq<AE.Message>): seq<Hubs.Frame> {
    if messages == [] then []
    else
      var n := |messages| - 1;
      Frames(codec, messages[..n]) +
      match Hubs.ParseFrame(Wire(codec, messages[n]))
      case None => []
      case Some(f) => [f]
  }

  /** What the browser plays of these frames: each is decoded on its own. */
  function Played(codec: Codec, frames: seq<Hubs.Frame>): seq<int> {
    if frames == [] then []
    else
      var n := |frames| - 1;
      Played(codec, frames[..n]) + (if frames[n].pcm == "" then [] else Pcm.Decode(codec.decode(frames[n].pcm)))
  }

  /** Every message gets through as one frame with its flags, and with its sound
      exactly if it is not flagged encrypted. */
  lemma EveryMessageArrives(codec: Codec, m: AE.Message)
    requires Sound(codec)
    ensures var parsed := Hubs.ParseFrame(Wire(codec, m));
            && parsed.Some? && parsed.value.encrypted == m.encrypted && parsed.value.end == m.end
            && parsed.value.sampleRate == SAMPLE_RATE
            && parsed.value.pcm == (if m.encrypted || m.pcm == [] then "" else codec.encode(m.pcm))
  {
    Hubs.AcceptedIff(Wire(codec, m));
    assert codec.encode(m.pcm) == "" <==> m.pcm == [];
  }

  /** The sound of the messages that are not flagged encrypted, batch by batch. */
  function ClearBatches(messages: seq<AE.Message>): seq<seq<byte>> {
    if messages == [] then []
    else
      var n := |messages| - 1;
      ClearBatches(messages[..n]) +
      (if messages[n].encrypted || messages[n].pcm == [] then [] else [messages[n].pcm])
  }

  function DecodeEach(batches: seq<seq<byte>>): seq<int> {
    if batches == [] then [] else DecodeEach(batches[..|batches| - 1]) + Pcm.Decode(batches[|batches| - 1])
  }

  lemma DecodeEachSnoc(batches: seq<seq<byte>>, batch: seq<byte>)
    ensures DecodeEach(batches + [batch]) == DecodeEach(batches) + Pcm.Decode(batch)
  {
    assert (batches + [batch])[..|batches|] == batches;
  }

  lemma PlayedSnoc(codec: Codec, frames: seq<Hubs.Frame>, f: Hubs.Frame)
    ensures Played(codec, frames + [f]) ==
            Played(codec, frames) + (if f.pcm == "" then [] else Pcm.Decode(codec.decode(f.pcm)))
  {
    assert (frames + [f])[..|frames|] == frames;
  }

  /** What is played of any messages is the sound of those not flagged encrypted. */
  lemma {:induction false} PlayedIsClear(codec: Codec, messages: seq<AE.Message>)
    requires Sound(codec)
    ensures |Frames(codec, messages)| == |messages|
    ensures Played(codec, Frames(codec, messages)) == DecodeEach(ClearBatches(messages))
    decreases messages
  {
    if messages != [] {
      var n := |messages| - 1;
      var front, m := messages[..n], messages[n];
      PlayedIsClear(codec, front);
      EveryMessageArrives(codec, m);
      var f := Hubs.ParseFrame(Wire(codec, m)).value;
      PlayedSnoc(codec, Frames(codec, front), f);
      if !m.encrypted && m.pcm != [] {
        assert codec.decode(codec.encode(m.pcm)) == m.pcm && codec.encode(m.pcm) != "";
        DecodeEachSnoc(ClearBatches(front), m.pcm);
      } else {
        assert ClearBatches(front) + [] == ClearBatches(front);
      }
    }
  }

  /** Whole samples only. */
  predicate EvenBatches(messages: seq<AE.Message>) {
    forall i :: 0 <= i < |messages| ==> |messages[i].pcm| % 2 == 0
  }

  lemma StepIsEven(t: AE.Tracked, look: AE.Look)
    requires |t.pending| % 2 == 0
    ensures |AE.PumpOne(t, look).tracked.pending| % 2 == 0 && EvenBatches(AE.PumpOne(t, look).messages)
  {
    DrainIsEven(t, look.buffers);
  }

  lemma DrainIsEven(t: AE.Tracked, buffers: seq<seq<real>>)
    requires |t.pending| % 2 == 0
    ensures |AE.Drained(t, buffers).pending| % 2 == 0
  {
  }

  lemma {:induction false} LifeIsEven(t: AE.Tracked, looks: seq<AE.Look>)
    requires |t.pending| % 2 == 0
    ensures EvenBatches(AE.Life(t, looks).1)
    decreases looks
  {
    if looks != [] {
      StepIsEven(t, looks[0]);
      var o := AE.PumpOne(t, looks[0]);
      if !o.done {
        LifeIsEven(o.tracked, looks[1..]);
      }
    }
  }

  lemma ClearBatchesSnoc(messages: seq<AE.Message>, m: AE.Message)
    ensures ClearBatches(messages + [m]) ==
            ClearBatches(messages) + (if m.encrypted || m.pcm == [] then [] else [m.pcm])
  {
    assert (messages + [m])[..|messages|] == messages;
  }

  /** All decoded together gives the same, so far. */
  ghost predicate EachLikeAll(messages: seq<AE.Message>) {
    DecodeEach(ClearBatches(messages)) == Pcm.Decode(AE.Sound(messages)) && |AE.Sound(messages)| % 2 == 0
  }

  lemma EachNext(messages: seq<AE.Message>, m: AE.Message)
    requires EachLikeAll(messages) && |m.pcm| % 2 == 0 && !m.encrypted
    ensures EachLikeAll(messages + [m])
  {
    var batches, sound := ClearBatches(messages), AE.Sound(messages);
    AE.SoundConcat(messages, [m]);
    AE.SoundOne(m);
    ClearBatchesSnoc(messages, m);
    Pcm.DecodeConcat(sound, m.pcm);
    if m.pcm == [] {
      assert batches + [] == batches && sound + [] == sound;
    } else {
      DecodeEachSnoc(batches, m.pcm);
    }
  }

  /** Whole-sample batches decode one by one as they do together. */
  lemma {:induction false} EachIsAll(messages: seq<AE.Message>)
    requires EvenBatches(messages) && forall i :: 0 <= i < |messages| ==> !messages[i].encrypted
    ensures EachLikeAll(messages)
    decreases messages
  {
    if messages != [] {
      var n := |messages| - 1;
      EachIsAll(messages[..n]);
      EachNext(messages[..n], messages[n]);
      assert messages[..n] + [messages[n]] == messages;
    }
  }

  /** A clear call that completes is heard: every message reaches the hub as a frame,
      and what the browser decodes, frame by frame, is exactly the rounded, clipped
      samples of all buffers, in order. */
  lemma ClearCallHeard(codec: Codec, looks: seq<AE.Look>)
    requires Sound(codec) && AE.ClearLife(looks)
    ensures var messages := AE.Life(AE.FRESH, looks).1;
            && |Frames(codec, messages)| == |messages|
            && Played(codec, Frames(codec, messages)) == Pcm.QuantizeAll(Flatten(looks[|looks| - 1].buffers))
  {
    var messages := AE.Life(AE.FRESH, looks).1;
    PlayedIsClear(codec, messages);
    AE.ClearLifeFlags(AE.FRESH, looks);
    LifeIsEven(AE.FRESH, looks);
    NotEncrypted(messages);
    EachIsAll(messages);
    AE.BatchesAreSound(messages);
    AE.ClearSegmentDelivered(looks);
  }

  lemma NotEncrypted(messages: seq<AE.Message>)
    requires AE.ClearCall(messages)
    ensures forall i :: 0 <= i < |messages| ==> !messages[i].encrypted
  {
    forall i | 0 <= i < |messages| ensures !messages[i].encrypted {
      if i < |messages| - 1 {
        assert AE.ClearSound(messages[i]);
      }
    }
  }

  /** Nothing is heard of a segment from when it is flagged for good. */
  lemma EncryptedCallNotHeard(codec: Codec, t: AE.Tracked, looks: seq<AE.Look>)
    requires Sound(codec) && forall i :: 0 <= i < |looks| ==> looks[i].encrypted
    ensures Played(codec, Frames(codec, AE.Life(t, looks).1)) == []
  {
    AE.SilentOnceFlagged(t, looks);
    PlayedIsClear(codec, AE.Life(t, looks).1);
    NothingClear(AE.Life(t, looks).1);
  }

  lemma {:induction false} NothingClear(messages: seq<AE.Message>)
    requires AE.Silent(messages)
    ensures ClearBatches(messages) == []
    decreases messages
  {
    if messages != [] {
      NothingClear(messages[..|messages| - 1]);
    }
  }
}
