/** The audio exporter: it owns one consumer count of every segment it receives,
    batches decoded PCM, and sends silence markers for encrypted calls. */
module AudioExporter {
  import opened Basics
  import Pcm

  const BATCH_BYTES: nat := 1600
  const SILENCE_MS: int := 1000

  /** What the exporter remembers of a segment it follows. */
  datatype Tracked = Tracked(pending: seq<byte>, nextBuffer: nat, lastSilenceAt: int)

  const FRESH := Tracked([], 0, 0)

  /** Where an exception is raised in the body of a pump step, if anywhere: before
      the release, after so many messages, or by the release, which may or may not
      have taken effect. */
  datatype Fault = NoFault | InBody(sent: nat) | InRelease(effect: bool)

  /** What one pump step sees of a segment. Other threads may change a segment at
      any time, so each read of the encrypted flag has its own answer: before the
      drain, before the flush, and for the end marker. buffers is the segment's
      buffer list at the drain (a null buffer counts as empty). caught: whether the
      release in the exception handler takes effect. */
  datatype Look = Look(
    now: int, encrypted: bool, buffers: seq<seq<real>>,
    complete: bool, encryptedAtFlush: bool, encryptedAtEnd: bool, fault: Fault, caught: bool)

  /** One message; no PCM is the empty sequence. */
  datatype Message = Message(pcm: seq<byte>, encrypted: bool, end: bool)

  const NO_SOUND: seq<byte> := []

  /** done: the segment is let go of. releases: how often its count is given back. */
  datatype Outcome = Outcome(tracked: Tracked, messages: seq<Message>, done: bool, releases: nat)

  function Drained(t: Tracked, buffers: seq<seq<real>>): Tracked {
    if t.nextBuffer < |buffers|
    then Tracked(t.pending + Pcm.Encode(Flatten(buffers[t.nextBuffer..])), |buffers|, t.lastSilenceAt)
    else t
  }

  /** The first half of a step: a silence marker, or newly drained PCM. */
  function Update(t: Tracked, look: Look): (Tracked, seq<Message>) {
    if look.encrypted then
      if look.now - t.lastSilenceAt >= SILENCE_MS
      then (Tracked([], t.nextBuffer, look.now), [Message(NO_SOUND, true, false)])
      else (t.(pending := []), [])
    else
      var d := Drained(t, look.buffers);
      if |d.pending| >= BATCH_BYTES then (d.(pending := []), [Message(d.pending, false, false)]) else (d, [])
  }

  /** The second half: the flush and the end marker of a complete segment. */
  function Closing(t: Tracked, look: Look): seq<Message> {
    (if !look.encryptedAtFlush && t.pending != [] then [Message(t.pending, false, false)] else []) +
    [Message(NO_SOUND, look.encryptedAtEnd, true)]
  }

  /** State and messages of a step, up to its release. */
  function Sending(t: Tracked, look: Look): (Tracked, seq<Message>) {
    var (t1, first) := Update(t, look);
    var all := if look.complete then first + Closing(t1, look) else first;
    if look.fault.InBody? then (t1, if look.fault.sent < |all| then all[..look.fault.sent] else all)
    else (if look.complete then t1.(pending := []) else t1, all)
  }

  /** Releases by the exception handler. */
  function Handled(look: Look): nat { if look.caught then 1 else 0 }

  function Releases(look: Look): nat {
    match look.fault
    case InBody(_) => Handled(look)
    case InRelease(effect) => if look.complete then (if effect then 1 else 0) + Handled(look) else 0
    case NoFault => if look.complete then 1 else 0
  }

  function PumpOne(t: Tracked, look: Look): Outcome {
    var (tracked, messages) := Sending(t, look);
    Outcome(tracked, messages, look.complete || look.fault.InBody?, Releases(look))
  }

  lemma DrainOne(t: Tracked, buffers: seq<seq<real>>)
    requires t.nextBuffer < |buffers|
    ensures var samples := buffers[t.nextBuffer];
            Drained(t, buffers) ==
            Drained(Tracked(t.pending + Pcm.Encode(samples), t.nextBuffer + 1, t.lastSilenceAt), buffers)
  {
    var n := t.nextBuffer;
    var first, rest := buffers[n], buffers[n + 1..];
    assert buffers[n..] == [first] + rest;
    assert Flatten([first] + rest) == first + Flatten(rest);
    Pcm.EncodeConcat(first, Flatten(rest));
    var a, b := Pcm.Encode(first), Pcm.Encode(Flatten(rest));
    assert t.pending + (a + b) == t.pending + a + b;
    if n + 1 == |buffers| {
      assert rest == [] && b == [] && t.pending + a + b == t.pending + a;
    }
  }

  /** The drain as it runs: buffer by buffer, empty ones skipped. */
  method DrainNewBuffers(t: Tracked, buffers: seq<seq<real>>) returns (d: Tracked)
    ensures d == Drained(t, buffers)
  {
    d := t;
    while d.nextBuffer < |buffers|
      invariant Drained(d, buffers) == Drained(t, buffers)
      decreases |buffers| - d.nextBuffer
    {
      var samples := buffers[d.nextBuffer];
      DrainOne(d, buffers);
      d := d.(nextBuffer := d.nextBuffer + 1);
      if samples == [] {
        assert d.pending + Pcm.Encode(samples) == d.pending;
        continue;
      }
      var pending := Pcm.AppendPcm(d.pending, samples);
      d := d.(pending := pending);
    }
  }

  /** The body of a pump step as it runs, up to its release or to an exception. */
  method PumpSegment(t: Tracked, look: Look) returns (tracked: Tracked, messages: seq<Message>)
    ensures (tracked, messages) == Sending(t, look)
  {
    tracked, messages := t, [];
    if look.encrypted {
      tracked := tracked.(pending := []);
      if look.now - tracked.lastSilenceAt >= SILENCE_MS {
        messages := messages + [Message(NO_SOUND, true, false)];
        tracked := tracked.(lastSilenceAt := look.now);
      }
    } else {
      tracked := DrainNewBuffers(tracked, look.buffers);
      if |tracked.pending| >= BATCH_BYTES {
        messages := messages + [Message(tracked.pending, false, false)];
        tracked := tracked.(pending := []);
      }
    }
    assert tracked == Update(t, look).0;
    assert messages == Update(t, look).1;
    if look.fault.InBody? {
      var all := if look.complete then messages + Closing(tracked, look) else messages;
      return tracked, if look.fault.sent < |all| then all[..look.fault.sent] else all;
    }
    if look.complete {
      ghost var first, waiting := messages, tracked;
      if !look.encryptedAtFlush && |tracked.pending| > 0 {
        messages := messages + [Message(tracked.pending, false, false)];
      }
      messages := messages + [Message(NO_SOUND, look.encryptedAtEnd, true)];
      assert messages == first + Closing(waiting, look);
      tracked := tracked.(pending := []);
    }
  }

  // ----- Encrypted audio -----

  predicate Silent(messages: seq<Message>) {
    forall i :: 0 <= i < |messages| ==> messages[i].pcm == []
  }

  /** A step that finds the segment encrypted sends no PCM and keeps none; PCM is
      flushed at the end only if the segment is still clear then. */
  lemma EncryptedStepIsSilent(t: Tracked, look: Look)
    requires look.encrypted
    ensures Silent(PumpOne(t, look).messages) && PumpOne(t, look).tracked.pending == []
  {
  }

  /** A segment's life: looks until the step that lets go of it. */
  function Life(t: Tracked, looks: seq<Look>): (Tracked, seq<Message>, bool)
    decreases looks
  {
    if looks == [] then (t, [], false)
    else
      var o := PumpOne(t, looks[0]);
      if o.done then (o.tracked, o.messages, true)
      else
        var rest := Life(o.tracked, looks[1..]);
        (rest.0, o.messages + rest.1, rest.2)
  }

  /** Once flagged for good, a segment never sends PCM again. */
  lemma {:induction false} SilentOnceFlagged(t: Tracked, looks: seq<Look>)
    requires forall i :: 0 <= i < |looks| ==> looks[i].encrypted
    ensures Silent(Life(t, looks).1)
    decreases looks
  {
    if looks != [] {
      EncryptedStepIsSilent(t, looks[0]);
      var o := PumpOne(t, looks[0]);
      if !o.done {
        SilentOnceFlagged(o.tracked, looks[1..]);
      }
    }
  }

  // ----- Clear segments -----

  /** The PCM of all messages, in order. */
  function Sound(messages: seq<Message>): seq<byte> {
    if messages == [] then []
    else Sound(messages[..|messages| - 1]) + messages[|messages| - 1].pcm
  }

  lemma {:induction false} SoundConcat(a: seq<Message>, b: seq<Message>)
    ensures Sound(a + b) == Sound(a) + Sound(b)
    decreases b
  {
    if b == [] {
      assert a + b == a;
    } else {
      assert (a + b)[..|a + b| - 1] == a + b[..|b| - 1];
      SoundConcat(a, b[..|b| - 1]);
    }
  }

  lemma SoundOne(m: Message)
    ensures Sound([m]) == m.pcm && Sound([]) == []
  {
    assert [m][..0] == [];
  }

  /** Never encrypted, nothing breaks, buffers are only ever added, and exactly the
      last look finds the segment complete. */
  predicate ClearLife(looks: seq<Look>) {
    && looks != []
    && (forall i :: 0 <= i < |looks| ==>
         && !looks[i].encrypted && !looks[i].encryptedAtFlush && !looks[i].encryptedAtEnd
         && looks[i].fault == NoFault
         && (looks[i].complete <==> i == |looks| - 1))
    && forall i, j :: 0 <= i <= j < |looks| ==> looks[i].buffers <= looks[j].buffers
  }

  /** PCM of the buffers from the k-th on. */
  function PcmFrom(buffers: seq<seq<real>>, k: nat): seq<byte>
    requires k <= |buffers|
  {
    Pcm.Encode(Flatten(buffers[k..]))
  }

  lemma PcmFromSplits(early: seq<seq<real>>, late: seq<seq<real>>, k: nat)
    requires k <= |early| && early <= late
    ensures PcmFrom(late, k) == PcmFrom(early, k) + PcmFrom(late, |early|)
  {
    assert late[k..] == early[k..] + late[|early|..];
    FlattenAppend(early[k..], late[|early|..]);
    Pcm.EncodeConcat(Flatten(early[k..]), Flatten(late[|early|..]));
  }

  lemma PcmFromEnd(buffers: seq<seq<real>>)
    ensures PcmFrom(buffers, |buffers|) == []
  {
    assert buffers[|buffers|..] == [];
  }

  /** One clear step moves exactly the new buffers into what was sent or waits. */
  lemma ClearUpdate(t: Tracked, look: Look)
    requires !look.encrypted && t.nextBuffer <= |look.buffers|
    ensures var (t1, first) := Update(t, look);
            && t1.nextBuffer == |look.buffers|
            && Sound(first) + t1.pending == t.pending + PcmFrom(look.buffers, t.nextBuffer)
            && forall i :: 0 <= i < |first| ==> |first[i].pcm| >= BATCH_BYTES
  {
    var d := Drained(t, look.buffers);
    PcmFromEnd(look.buffers);
    assert d.pending == t.pending + PcmFrom(look.buffers, t.nextBuffer);
    SoundOne(Message(d.pending, false, false));
    assert d.pending + [] == d.pending && [] + d.pending == d.pending;
  }

  /** The PCM batches of messages: those that carry sound. */
  function Batches(messages: seq<Message>): seq<seq<byte>> {
    if messages == [] then []
    else
      var last := messages[|messages| - 1].pcm;
      Batches(messages[..|messages| - 1]) + (if last != [] then [last] else [])
  }

  lemma {:induction false} BatchesConcat(a: seq<Message>, b: seq<Message>)
    ensures Batches(a + b) == Batches(a) + Batches(b)
    decreases b
  {
    if b == [] {
      assert a + b == a;
    } else {
      assert (a + b)[..|a + b| - 1] == a + b[..|b| - 1];
      BatchesConcat(a, b[..|b| - 1]);
    }
  }

  lemma {:induction false} BatchesAreSound(messages: seq<Message>)
    ensures Flatten(Batches(messages)) == Sound(messages)
  {
    if messages != [] {
      var n := |messages| - 1;
      var before, last := Batches(messages[..n]), messages[n].pcm;
      BatchesAreSound(messages[..n]);
      FlattenSnoc(before, last);
      assert before + [] == before;
    }
  }

  lemma {:induction false} LargeBatches(messages: seq<Message>)
    requires forall i :: 0 <= i < |messages| ==> |messages[i].pcm| >= BATCH_BYTES
    ensures forall i :: 0 <= i < |Batches(messages)| ==> |Batches(messages)[i]| >= BATCH_BYTES
  {
    if messages != [] {
      LargeBatches(messages[..|messages| - 1]);
    }
  }

  /** All batches but the last have at least 1600 bytes. */
  predicate LargeButLast(batches: seq<seq<byte>>) {
    forall i :: 0 <= i < |batches| - 1 ==> |batches[i]| >= BATCH_BYTES
  }

  lemma ClosingSound(t: Tracked, look: Look)
    requires !look.encryptedAtFlush
    ensures Sound(Closing(t, look)) == t.pending && |Batches(Closing(t, look))| <= 1
  {
    var end := Message(NO_SOUND, look.encryptedAtEnd, true);
    SoundOne(end);
    SoundOne(Message(t.pending, false, false));
    var flush := if t.pending != [] then [Message(t.pending, false, false)] else [];
    SoundConcat(flush, [end]);
    BatchesConcat(flush, [end]);
    assert [end][..0] == [] && [Message(t.pending, false, false)][..0] == [];
    assert Batches([end]) == [];
    assert t.pending + [] == t.pending;
  }

  /** The last step of a clear life. */
  lemma ClearLast(t: Tracked, look: Look)
    requires look.fault == NoFault && look.complete
    ensures Life(t, [look]).1 == Update(t, look).1 + Closing(Update(t, look).0, look) && Life(t, [look]).2
  {
  }

  /** A step of a clear life that is not the last. */
  lemma ClearNext(t: Tracked, looks: seq<Look>)
    requires looks != [] && looks[0].fault == NoFault && !looks[0].complete
    ensures var rest := Life(Update(t, looks[0]).0, looks[1..]);
            Life(t, looks).1 == Update(t, looks[0]).1 + rest.1 && Life(t, looks).2 == rest.2
  {
  }

  /** Sent so: in large batches but for the last, this PCM. */
  predicate Sends(messages: seq<Message>, pcm: seq<byte>) {
    Sound(messages) == pcm && LargeButLast(Batches(messages))
  }

  lemma SendsAfter(first: seq<Message>, rest: seq<Message>, pcm: seq<byte>)
    requires (forall i :: 0 <= i < |first| ==> |first[i].pcm| >= BATCH_BYTES) && Sends(rest, pcm)
    ensures Sends(first + rest, Sound(first) + pcm)
  {
    LargeBatches(first);
    SoundConcat(first, rest);
    BatchesConcat(first, rest);
  }

  lemma ClosingSends(t: Tracked, look: Look)
    requires !look.encryptedAtFlush
    ensures Sends(Closing(t, look), t.pending)
  {
    ClosingSound(t, look);
  }

  /** The messages of a clear segment that completes: their PCM is the encoding of
      what was waiting and of every buffer not drained yet, and all batches but the
      final flush are large. */
  lemma {:induction false} ClearLifeSendsAll(t: Tracked, looks: seq<Look>)
    requires ClearLife(looks) && t.nextBuffer <= |looks[0].buffers|
    ensures Life(t, looks).2
    ensures Sends(Life(t, looks).1, t.pending + PcmFrom(looks[|looks| - 1].buffers, t.nextBuffer))
    decreases looks
  {
    var look, last := looks[0], looks[|looks| - 1];
    var (t1, first) := Update(t, look);
    ClearUpdate(t, look);
    if |looks| == 1 {
      assert looks == [look];
      ClearLast(t, look);
      ClosingSends(t1, look);
      SendsAfter(first, Closing(t1, look), t1.pending);
    } else {
      ClearTail(looks);
      ClearNext(t, looks);
      ClearLifeSendsAll(t1, looks[1..]);
      var more := PcmFrom(last.buffers, |look.buffers|);
      SendsAfter(first, Life(t1, looks[1..]).1, t1.pending + more);
      PcmFromSplits(look.buffers, last.buffers, t.nextBuffer);
      Regroup(Sound(first), t1.pending, t.pending, PcmFrom(look.buffers, t.nextBuffer), more);
    }
  }

  lemma Regroup(a: seq<byte>, b: seq<byte>, c: seq<byte>, d: seq<byte>, e: seq<byte>)
    requires a + b == c + d
    ensures a + (b + e) == c + (d + e)
  {
    assert a + (b + e) == (a + b) + e;
  }

  lemma ClearTail(looks: seq<Look>)
    requires ClearLife(looks) && |looks| > 1
    ensures ClearLife(looks[1..]) && looks[0].buffers <= looks[1].buffers
  {
    var rest := looks[1..];
    forall i | 0 <= i < |rest| ensures rest[i] == looks[i + 1] && (rest[i].complete <==> i == |rest| - 1) {
    }
  }

  /** A clear segment that completes has sent, batch by batch, the PCM encoding of
      the buffers it had when it was last drained, in order; the browser decodes
      the batches to the rounded, clipped samples. */
  lemma ClearSegmentDelivered(looks: seq<Look>)
    requires ClearLife(looks)
    ensures var batches := Batches(Life(FRESH, looks).1);
            var samples := Flatten(looks[|looks| - 1].buffers);
            && Life(FRESH, looks).2
            && Flatten(batches) == Pcm.Encode(samples)
            && LargeButLast(batches)
            && Pcm.Decode(Flatten(batches)) == Pcm.QuantizeAll(samples)
  {
    var buffers := looks[|looks| - 1].buffers;
    ClearLifeSendsAll(FRESH, looks);
    BatchesAreSound(Life(FRESH, looks).1);
    assert [] + PcmFrom(buffers, 0) == PcmFrom(buffers, 0);
    assert buffers[0..] == buffers;
    Pcm.DecodeUndoesEncode(Flatten(buffers));
  }

  /** The segment may gain buffers between the last drain and the completeness
      check. Everything it ends up with was sent exactly when those late buffers
      hold no sample. */
  lemma AllDeliveredIff(looks: seq<Look>, final: seq<seq<real>>)
    requires ClearLife(looks) && looks[|looks| - 1].buffers <= final
    ensures Sound(Life(FRESH, looks).1) == Pcm.Encode(Flatten(final))
       <==> Flatten(final[|looks[|looks| - 1].buffers|..]) == []
  {
    var drained := looks[|looks| - 1].buffers;
    ClearLifeSendsAll(FRESH, looks);
    assert [] + PcmFrom(drained, 0) == PcmFrom(drained, 0);
    assert drained[0..] == drained && final[0..] == final;
    PcmFromSplits(drained, final, 0);
    assert |PcmFrom(final, |drained|)| == 2 * |Flatten(final[|drained|..])|;
  }

  // ----- Flags -----

  /** A message with sound, not flagged encrypted, and not the end. */
  predicate ClearSound(m: Message) { m.pcm != [] && !m.encrypted && !m.end }

  /** Sound messages, then one end marker. */
  predicate ClearCall(messages: seq<Message>) {
    && messages != [] && messages[|messages| - 1] == Message(NO_SOUND, false, true)
    && forall i :: 0 <= i < |messages| - 1 ==> ClearSound(messages[i])
  }

  lemma ClearCallBehind(first: seq<Message>, rest: seq<Message>)
    requires (forall i :: 0 <= i < |first| ==> ClearSound(first[i])) && ClearCall(rest)
    ensures ClearCall(first + rest)
  {
  }

  lemma ClearUpdateFlags(t: Tracked, look: Look)
    requires !look.encrypted
    ensures forall i :: 0 <= i < |Update(t, look).1| ==> ClearSound(Update(t, look).1[i])
  {
  }

  lemma ClearClosingFlags(t: Tracked, look: Look)
    requires !look.encryptedAtFlush && !look.encryptedAtEnd
    ensures ClearCall(Closing(t, look))
  {
  }

  /** A clear segment that completes sends sound that is not flagged encrypted, and
      at the end one end marker, which is not either. */
  lemma {:induction false} ClearLifeFlags(t: Tracked, looks: seq<Look>)
    requires ClearLife(looks)
    ensures ClearCall(Life(t, looks).1)
    decreases looks
  {
    var look := looks[0];
    var (t1, first) := Update(t, look);
    ClearUpdateFlags(t, look);
    if |looks| == 1 {
      assert looks == [look];
      ClearLast(t, look);
      ClearClosingFlags(t1, look);
      ClearCallBehind(first, Closing(t1, look));
    } else {
      ClearTail(looks);
      ClearNext(t, looks);
      ClearLifeFlags(t1, looks[1..]);
      ClearCallBehind(first, Life(t1, looks[1..]).1);
    }
  }

  /** After any step less than one batch waits to be sent. */
  lemma LessThanABatchWaits(t: Tracked, look: Look)
    ensures |PumpOne(t, look).tracked.pending| < BATCH_BYTES
  {
  }

  // ----- Silence markers -----

  /** Encrypted from first to last, nothing breaks, and exactly the last look finds
      the segment complete. */
  predicate EncryptedLife(looks: seq<Look>) {
    && looks != []
    && forall i :: 0 <= i < |looks| ==>
         && looks[i].encrypted && looks[i].encryptedAtFlush && looks[i].encryptedAtEnd
         && looks[i].fault == NoFault && (looks[i].complete <==> i == |looks| - 1)
  }

  function Nows(looks: seq<Look>): (nows: seq<int>)
    ensures |nows| == |looks| && forall i :: 0 <= i < |nows| ==> nows[i] == looks[i].now
  {
    seq(|looks|, i requires 0 <= i < |looks| => looks[i].now)
  }

  /** The times at which a marker is due, the last one having been sent at last. */
  function Due(last: int, nows: seq<int>): seq<int>
    decreases nows
  {
    if nows == [] then []
    else if nows[0] - last >= 1000 then [nows[0]] + Due(nows[0], nows[1..])
    else Due(last, nows[1..])
  }

  function Markers(n: nat): (ms: seq<Message>)
    ensures |ms| == n && forall i :: 0 <= i < n ==> ms[i] == Message(NO_SOUND, true, false)
  {
    seq(n, _ => Message(NO_SOUND, true, false))
  }

  /** The last of these times, or the one before. */
  function LastOf(last: int, times: seq<int>): int { if times == [] then last else times[|times| - 1] }

  /** These times are a second apart, and the first a second after last. */
  predicate SecondsApart(last: int, times: seq<int>) {
    && (times != [] ==> times[0] - last >= 1000)
    && forall i :: 0 < i < |times| ==> times[i] - times[i - 1] >= 1000
  }

  lemma OneEarlier(last: int, time: int, times: seq<int>)
    requires SecondsApart(time, times) && time - last >= 1000
    ensures SecondsApart(last, [time] + times) && LastOf(last, [time] + times) == LastOf(time, times)
  {
    var all := [time] + times;
    forall i | 0 < i < |all| ensures all[i] - all[i - 1] >= 1000 {
      assert all[i] == times[i - 1] && (i > 1 ==> all[i - 1] == times[i - 2]);
    }
  }

  /** Markers that are due are a second apart, and at every step the latest one is
      less than a second old. */
  lemma {:induction false} DueOncePerSecond(last: int, nows: seq<int>)
    ensures SecondsApart(last, Due(last, nows))
    ensures nows != [] ==> nows[|nows| - 1] - LastOf(last, Due(last, nows)) < 1000
    decreases nows
  {
    if nows != [] {
      var next := if nows[0] - last >= 1000 then nows[0] else last;
      DueOncePerSecond(next, nows[1..]);
      if nows[0] - last >= 1000 {
        OneEarlier(last, nows[0], Due(nows[0], nows[1..]));
      }
      assert |nows| > 1 ==> nows[1..][|nows| - 2] == nows[|nows| - 1];
      assert |nows| == 1 ==> nows[1..] == [];
    }
  }

  lemma EncryptedTail(looks: seq<Look>)
    requires EncryptedLife(looks) && |looks| > 1
    ensures EncryptedLife(looks[1..]) && Nows(looks)[1..] == Nows(looks[1..])
  {
    var rest := looks[1..];
    forall i | 0 <= i < |rest| ensures rest[i] == looks[i + 1] && (rest[i].complete <==> i == |rest| - 1) {
    }
  }

  lemma EncryptedUpdate(t: Tracked, look: Look)
    requires look.encrypted
    ensures var due := look.now - t.lastSilenceAt >= 1000;
            && Update(t, look).1 == Markers(if due then 1 else 0)
            && Update(t, look).0.lastSilenceAt == (if due then look.now else t.lastSilenceAt)
            && Update(t, look).0.pending == []
  {
  }

  lemma MarkersAdd(a: nat, b: nat)
    ensures Markers(a) + Markers(b) == Markers(a + b)
  {
  }

  /** An encrypted segment that completes sends one marker for every time that is
      due and, at the end, one end marker flagged encrypted. */
  lemma {:induction false} EncryptedLifeSends(t: Tracked, looks: seq<Look>)
    requires EncryptedLife(looks)
    ensures Life(t, looks).2
    ensures Life(t, looks).1 == Markers(|Due(t.lastSilenceAt, Nows(looks))|) + [Message(NO_SOUND, true, true)]
    decreases looks
  {
    var look, end := looks[0], [Message(NO_SOUND, true, true)];
    var (t1, first) := Update(t, look);
    EncryptedUpdate(t, look);
    if |looks| == 1 {
      assert looks == [look] && Nows(looks)[1..] == [];
      ClearLast(t, look);
      assert Closing(t1, look) == end;
    } else {
      EncryptedTail(looks);
      ClearNext(t, looks);
      EncryptedLifeSends(t1, looks[1..]);
      var more := |Due(t1.lastSilenceAt, Nows(looks[1..]))|;
      MarkersAdd(|first|, more);
      assert first + (Markers(more) + end) == first + Markers(more) + end;
    }
  }

  // ----- Ownership -----

  /** A followed segment: its identity and what is remembered of it. */
  datatype Followed = Followed(segment: nat, state: Tracked)

  function Ids(followed: seq<Followed>): (ids: seq<nat>)
    ensures |ids| == |followed|
    ensures forall i :: 0 <= i < |ids| ==> ids[i] == followed[i].segment
  {
    seq(|followed|, i requires 0 <= i < |followed| => followed[i].segment)
  }

  /** incoming: received, not looked at. hand: taken off by the run loop. followed:
      tracked. received, released: all consumer counts ever taken and given back. */
  datatype Books = Books(
    incoming: seq<nat>, hand: Option<nat>, followed: seq<Followed>, received: multiset<nat>, released: multiset<nat>)

  const NO_BOOKS := Books([], None, [], multiset{}, multiset{})

  datatype BookOp =
    | Receive(segment: nat)
    | TakeOff                   // the run loop polls one segment
    | Sort(duplicate: bool)     // and releases it as a duplicate, or follows it
    | Lose                      // an exception leaves the run loop before that
    | PumpStep(i: nat, look: Look)
    | Dispose                   // with the pump stopped

  predicate BookEnabled(b: Books, op: BookOp) {
    match op
    case Receive(_) => true
    case TakeOff => b.hand == None && b.incoming != []
    case Sort(_) => b.hand.Some?
    case Lose => b.hand.Some?
    case PumpStep(i, _) => b.hand == None && i < |b.followed|
    case Dispose => b.hand == None
  }

  /** n counts of one segment. */
  function Copies(segment: nat, n: nat): multiset<nat> { multiset{}[segment := n] }

  function Without<T>(s: seq<T>, i: nat): seq<T>
    requires i < |s|
  {
    s[..i] + s[i + 1..]
  }

  /** The counts one segment's pump step gives back. */
  function Freed(f: Followed, look: Look): multiset<nat> { Copies(f.segment, Releases(look)) }

  /** The list after a pump step of its i-th segment. */
  function Pumped(followed: seq<Followed>, i: nat, look: Look): seq<Followed>
    requires i < |followed|
  {
    var o := PumpOne(followed[i].state, look);
    if o.done then Without(followed, i) else followed[i := Followed(followed[i].segment, o.tracked)]
  }

  function BookStep(b: Books, op: BookOp): Books {
    if !BookEnabled(b, op) then b
    else match op
      case Receive(s) => b.(incoming := b.incoming + [s], received := b.received + multiset{s})
      case TakeOff => b.(incoming := b.incoming[1..], hand := Some(b.incoming[0]))
      case Sort(duplicate) =>
        if duplicate then b.(hand := None, released := b.released + multiset{b.hand.value})
        else b.(hand := None, followed := b.followed + [Followed(b.hand.value, FRESH)])
      case Lose => b.(hand := None)
      case PumpStep(i, look) =>
        b.(followed := Pumped(b.followed, i, look), released := b.released + Freed(b.followed[i], look))
      case Dispose =>
        b.(incoming := [], followed := [],
           released := b.released + multiset(Ids(b.followed)) + multiset(b.incoming))
  }

  function BookRun(ops: seq<BookOp>): Books {
    if ops == [] then NO_BOOKS else BookStep(BookRun(ops[..|ops| - 1]), ops[|ops| - 1])
  }

  /** How often the exporter holds a count of this segment. */
  function Held(b: Books, s: nat): nat {
    multiset(b.incoming)[s] + (if b.hand == Some(s) then 1 else 0) + multiset(Ids(b.followed))[s]
  }

  /** The step lets go of this segment: how many releases too many that was. */
  function Surplus(b: Books, op: BookOp, s: nat): int {
    if !BookEnabled(b, op) then 0
    else match op
      case Lose => if b.hand == Some(s) then -1 else 0
      case PumpStep(i, look) =>
        if b.followed[i].segment == s && (look.complete || look.fault.InBody?) then Releases(look) - 1 else 0
      case _ => 0
  }

  function TotalSurplus(ops: seq<BookOp>, s: nat): int {
    if ops == [] then 0
    else
      var n := |ops| - 1;
      TotalSurplus(ops[..n], s) + Surplus(BookRun(ops[..n]), ops[n], s)
  }

  /** Steps of the run that released this segment too often or not at all. */
  function WrongSteps(ops: seq<BookOp>, s: nat): nat {
    if ops == [] then 0
    else
      var n := |ops| - 1;
      WrongSteps(ops[..n], s) + (if Surplus(BookRun(ops[..n]), ops[n], s) != 0 then 1 else 0)
  }

  // ----- Counting one segment -----

  lemma CountSnoc(xs: seq<nat>, x: nat, s: nat)
    ensures multiset(xs + [x])[s] == multiset(xs)[s] + (if x == s then 1 else 0)
  {
    assert multiset(xs + [x]) == multiset(xs) + multiset{x};
  }

  lemma CountWithout(xs: seq<nat>, i: nat, s: nat)
    requires i < |xs|
    ensures multiset(xs)[s] == multiset(Without(xs, i))[s] + (if xs[i] == s then 1 else 0)
  {
    assert xs == xs[..i] + [xs[i]] + xs[i + 1..];
    assert multiset(xs) == multiset(Without(xs, i)) + multiset{xs[i]};
  }

  lemma CountTail(xs: seq<nat>, s: nat)
    requires xs != []
    ensures multiset(xs)[s] == multiset(xs[1..])[s] + (if xs[0] == s then 1 else 0)
  {
    CountWithout(xs, 0, s);
    assert Without(xs, 0) == xs[1..];
  }

  /** A step changes released + held - received by its surplus, and a wrong step
      gives up one held count without a balancing entry. */
  ghost predicate Accounted(b: Books, op: BookOp, s: nat) {
    var b' := BookStep(b, op);
    && b'.released[s] + Held(b', s) - b'.received[s] == b.released[s] + Held(b, s) - b.received[s] + Surplus(b, op, s)
    && Held(b', s) - b'.received[s] + (if Surplus(b, op, s) != 0 then 1 else 0) <= Held(b, s) - b.received[s]
    && -1 <= Surplus(b, op, s) <= 1
  }

  lemma IncomingAccounted(b: Books, op: BookOp, s: nat)
    requires op.Receive? || op.TakeOff? || op.Sort? || op.Lose?
    ensures Accounted(b, op, s)
  {
    if BookEnabled(b, op) {
      match op
      case Receive(x) => CountSnoc(b.incoming, x, s);
      case TakeOff => CountTail(b.incoming, s);
      case Sort(duplicate) =>
        if !duplicate {
          var f := Followed(b.hand.value, FRESH);
          assert Ids(b.followed + [f]) == Ids(b.followed) + [f.segment];
          CountSnoc(Ids(b.followed), f.segment, s);
        }
      case Lose =>
    }
  }

  lemma PumpAccounted(b: Books, i: nat, look: Look, s: nat)
    requires BookEnabled(b, PumpStep(i, look))
    ensures Accounted(b, PumpStep(i, look), s)
  {
    if look.complete || look.fault.InBody? {
      assert Ids(Without(b.followed, i)) == Without(Ids(b.followed), i);
      CountWithout(Ids(b.followed), i, s);
    } else {
      var f := Followed(b.followed[i].segment, PumpOne(b.followed[i].state, look).tracked);
      assert Ids(b.followed[i := f]) == Ids(b.followed);
    }
  }

  lemma StepAccounted(b: Books, op: BookOp, s: nat)
    ensures Accounted(b, op, s)
  {
    if op.PumpStep? {
      if BookEnabled(b, op) {
        PumpAccounted(b, op.i, op.look, s);
      }
    } else if !op.Dispose? {
      IncomingAccounted(b, op, s);
    }
  }

  /** After every atomic step, for every segment: what was released and is held
      differs from what was received by exactly the surplus of the steps that let
      go of it. */
  lemma {:induction false} CountsAccounted(ops: seq<BookOp>, s: nat)
    ensures BookRun(ops).released[s] + Held(BookRun(ops), s) == BookRun(ops).received[s] + TotalSurplus(ops, s)
    ensures WrongSteps(ops, s) + Held(BookRun(ops), s) <= BookRun(ops).received[s]
    ensures WrongSteps(ops, s) == 0 ==> TotalSurplus(ops, s) == 0
    ensures WrongSteps(ops, s) == 1 ==> TotalSurplus(ops, s) != 0
  {
    if ops != [] {
      var n := |ops| - 1;
      CountsAccounted(ops[..n], s);
      StepAccounted(BookRun(ops[..n]), ops[n], s);
    }
  }

  // ----- Which steps are wrong -----

  /** An exception is raised in the body once its release has taken effect. */
  predicate RaisedAfterRelease(look: Look) {
    look.complete && look.fault == InRelease(true)
  }

  /** An exception is raised in the body before its release has taken effect. */
  predicate RaisedBeforeRelease(look: Look) {
    look.fault.InBody? || (look.complete && look.fault == InRelease(false))
  }

  /** The step releases what it lets go of once: nothing is raised after the body's
      release, and the handler makes up for one that did not happen. */
  predicate Clean(look: Look) {
    (RaisedAfterRelease(look) ==> !look.caught) && (RaisedBeforeRelease(look) ==> look.caught)
  }

  /** Step k pumps this segment. */
  predicate Pumps(ops: seq<BookOp>, s: nat, k: nat)
    requires k < |ops|
  {
    var b, op := BookRun(ops[..k]), ops[k];
    BookEnabled(b, op) && op.PumpStep? && b.followed[op.i].segment == s
  }

  /** Step k takes this segment out of the exporter's hands the wrong way. */
  predicate Mishandles(ops: seq<BookOp>, s: nat, k: nat)
    requires k < |ops|
  {
    (ops[k].Lose? && BookRun(ops[..k]).hand == Some(s)) || (Pumps(ops, s, k) && !Clean(ops[k].look))
  }

  lemma SurplusIff(ops: seq<BookOp>, s: nat, k: nat)
    requires k < |ops|
    ensures Surplus(BookRun(ops[..k]), ops[k], s) != 0 <==> Mishandles(ops, s, k)
  {
  }

  lemma MishandlesPrefix(ops: seq<BookOp>, s: nat, n: nat, k: nat)
    requires k < n <= |ops|
    ensures Mishandles(ops[..n], s, k) == Mishandles(ops, s, k)
  {
    assert ops[..n][..k] == ops[..k] && ops[..n][k] == ops[k];
  }

  lemma {:induction false} WrongIff(ops: seq<BookOp>, s: nat)
    ensures WrongSteps(ops, s) == 0 <==> forall k :: 0 <= k < |ops| ==> !Mishandles(ops, s, k)
  {
    if ops != [] {
      var n := |ops| - 1;
      WrongIff(ops[..n], s);
      SurplusIff(ops, s, n);
      forall k | 0 <= k < n ensures Mishandles(ops[..n], s, k) == Mishandles(ops, s, k) {
        MishandlesPrefix(ops, s, n, k);
      }
    }
  }

  /** Over any run: a segment received once is given back exactly once, now or when
      it is let go of, exactly when no exception left the run loop with it in hand
      and no pump step of it raised one after the body's release took effect, or
      before it with a release in the handler that failed as well. */
  lemma ReleasedOnceIff(ops: seq<BookOp>, s: nat)
    requires BookRun(ops).received[s] == 1
    ensures BookRun(ops).released[s] + Held(BookRun(ops), s) == 1 <==>
            forall k :: 0 <= k < |ops| ==> !Mishandles(ops, s, k)
  {
    CountsAccounted(ops, s);
    WrongIff(ops, s);
  }

  /** When the handler's release always takes effect and the run loop drops nothing:
      exactly when nothing is raised after the body's release took effect. */
  lemma ReleasedOnceIfHandled(ops: seq<BookOp>, s: nat)
    requires BookRun(ops).received[s] == 1
    requires forall k :: 0 <= k < |ops| ==> !ops[k].Lose? && (ops[k].PumpStep? ==> ops[k].look.caught)
    ensures BookRun(ops).released[s] + Held(BookRun(ops), s) == 1 <==>
            forall k :: 0 <= k < |ops| && Pumps(ops, s, k) ==> !RaisedAfterRelease(ops[k].look)
  {
    ReleasedOnceIff(ops, s);
    forall k | 0 <= k < |ops|
      ensures Mishandles(ops, s, k) <==> Pumps(ops, s, k) && RaisedAfterRelease(ops[k].look)
    {
    }
  }

  /** Every outcome of a pump step is reached from the start: a segment that is
      received, taken off, followed and pumped to its end is given back as often as
      that step says, so twice if the body's release is followed by an exception
      and the handler's release, and never if no release takes effect. */
  lemma OneSegmentRun(s: nat, look: Look)
    requires look.complete || look.fault.InBody?
    ensures var b := BookRun([Receive(s), TakeOff, Sort(false), PumpStep(0, look)]);
            && b.received[s] == 1 && Held(b, s) == 0 && b.released[s] == Releases(look)
            && (RaisedAfterRelease(look) && look.caught ==> b.released[s] == 2)
            && (RaisedBeforeRelease(look) && !look.caught ==> b.released[s] == 0)
  {
    var r1 := [Receive(s)];
    var r2 := r1 + [TakeOff];
    var r3 := r2 + [Sort(false)];
    BookRunNext([], Receive(s));
    BookRunNext(r1, TakeOff);
    BookRunNext(r2, Sort(false));
    BookRunNext(r3, PumpStep(0, look));
    assert BookRun(r1) == Books([s], None, [], multiset{s}, multiset{});
    assert BookRun(r3) == Books([], None, [Followed(s, FRESH)], multiset{s}, multiset{});
    assert Without([Followed(s, FRESH)], 0) == [];
    assert r3 + [PumpStep(0, look)] == [Receive(s), TakeOff, Sort(false), PumpStep(0, look)];
  }

  lemma BookRunNext(ops: seq<BookOp>, op: BookOp)
    ensures BookRun(ops + [op]) == BookStep(BookRun(ops), op)
  {
    assert (ops + [op])[..|ops|] == ops;
  }

  /** In a run without such a step every count of every segment, received however
      often, was given back once or is still held. */
  lemma EveryCountReleasedOnce(ops: seq<BookOp>, s: nat)
    requires forall k :: 0 <= k < |ops| ==> !Mishandles(ops, s, k)
    ensures BookRun(ops).received[s] == BookRun(ops).released[s] + Held(BookRun(ops), s)
  {
    CountsAccounted(ops, s);
    WrongIff(ops, s);
  }

  /** Disposing with the pump stopped gives back everything that is still held. */
  lemma DisposeReleasesAll(ops: seq<BookOp>, s: nat)
    requires BookRun(ops).hand == None
    ensures var b := BookStep(BookRun(ops), Dispose);
            b.incoming == [] && b.followed == [] && b.released[s] == b.received[s] + TotalSurplus(ops, s)
  {
    CountsAccounted(ops, s);
  }

  // ----- First in, first out -----

  /** All segments received, oldest first. */
  function Arrived(ops: seq<BookOp>): seq<nat> {
    if ops == [] then []
    else
      var op := ops[|ops| - 1];
      Arrived(ops[..|ops| - 1]) + (if op.Receive? then [op.segment] else [])
  }

  /** All segments the run loop has taken off, first one first. */
  function TakenOff(ops: seq<BookOp>): seq<nat> {
    if ops == [] then []
    else
      var b, b' := BookRun(ops[..|ops| - 1]), BookRun(ops);
      TakenOff(ops[..|ops| - 1]) +
      (if ops[|ops| - 1].TakeOff? && b.hand == None && b'.hand.Some? then [b'.hand.value] else [])
  }

  lemma TakeStep(b: Books, op: BookOp, arrived: seq<nat>, taken: seq<nat>)
    requires arrived == taken + b.incoming && !op.Dispose?
    ensures var b' := BookStep(b, op);
            arrived + (if op.Receive? then [op.segment] else []) ==
            taken + (if op.TakeOff? && b.hand == None && b'.hand.Some? then [b'.hand.value] else []) + b'.incoming
    ensures op.TakeOff? && b.hand == None && b.incoming != [] ==> BookStep(b, op).hand.Some?
  {
  }

  /** Until it is disposed, the run loop takes segments off in the order they came,
      and a poll takes one whenever one waits. */
  lemma {:induction false} FirstInFirstOut(ops: seq<BookOp>)
    requires forall k :: 0 <= k < |ops| ==> !ops[k].Dispose?
    ensures Arrived(ops) == TakenOff(ops) + BookRun(ops).incoming
    ensures BookRun(ops).hand == None && BookRun(ops).incoming != [] ==>
              BookStep(BookRun(ops), TakeOff).hand == Some(BookRun(ops).incoming[0])
  {
    if ops != [] {
      var n := |ops| - 1;
      FirstInFirstOut(ops[..n]);
      TakeStep(BookRun(ops[..n]), ops[n], Arrived(ops[..n]), TakenOff(ops[..n]));
    }
  }

  // ----- The object -----

  class AudioFrameExporter {
    const enabled: bool
    var incoming: seq<nat>
    var hand: Option<nat>
    var tracked: seq<Followed>
    var sent: seq<Message>
    ghost var received: multiset<nat>
    ghost var released: multiset<nat>

    ghost function View(): Books
      reads this
    {
      Books(incoming, hand, tracked, received, released)
    }

    constructor (enabled: bool)
      ensures View() == NO_BOOKS && this.enabled == enabled && sent == []
    {
      this.enabled := enabled;
      incoming, hand, tracked, sent := [], None, [], [];
      received, released := multiset{}, multiset{};
    }

    /** A disabled exporter gives the count back at once. */
    method Receive(segment: nat)
      modifies this
      ensures enabled ==> View() == BookStep(old(View()), BookOp.Receive(segment))
      ensures !enabled ==> View() == old(View()).(received := old(received) + multiset{segment},
                                                  released := old(released) + multiset{segment})
      ensures sent == old(sent)
    {
      received := received + multiset{segment};
      if !enabled {
        released := released + multiset{segment};
        return;
      }
      incoming := incoming + [segment];
    }

    /** The run loop's poll. */
    method Poll()
      requires hand == None && incoming != []
      modifies this
      ensures View() == BookStep(old(View()), TakeOff) && sent == old(sent)
    {
      hand := Some(incoming[0]);
      incoming := incoming[1..];
    }

    /** The polled segment is released as a duplicate, or followed. */
    method SortPolled(duplicate: bool)
      requires hand.Some?
      modifies this
      ensures View() == BookStep(old(View()), Sort(duplicate)) && sent == old(sent)
    {
      if duplicate {
        released := released + multiset{hand.value};
      } else {
        tracked := tracked + [Followed(hand.value, FRESH)];
      }
      hand := None;
    }

    /** The run loop's inner loop; duplicates are the segments that say so. */
    method TakeIncoming(duplicates: set<nat>)
      requires hand == None
      modifies this
      ensures View() == Taken(old(View()), duplicates) && sent == old(sent)
      ensures incoming == [] && hand == None
    {
      while incoming != []
        invariant hand == None && sent == old(sent)
        invariant Taken(View(), duplicates) == Taken(old(View()), duplicates)
        decreases |incoming|
      {
        Poll();
        SortPolled(hand.value in duplicates);
      }
    }

    /** The books once everything that waits is sorted, oldest first. */
    static function Taken(b: Books, duplicates: set<nat>): Books
      decreases |b.incoming|
    {
      if b.incoming == [] || b.hand.Some? then b
      else Taken(BookStep(BookStep(b, TakeOff), Sort(b.incoming[0] in duplicates)), duplicates)
    }

    /** The end of a pump step that is complete or was broken: the body releases and
        removes the segment, unless an exception got in the way; the exception
        handler releases and removes it itself. */
    method LetGo(i: nat, look: Look)
      requires i < |tracked| && (look.complete || look.fault.InBody?)
      modifies this
      ensures View() == old(View()).(followed := Without(old(tracked), i),
                                     released := old(released) + Freed(old(tracked)[i], look))
      ensures sent == old(sent)
    {
      var segment := tracked[i].segment;
      var raised := look.fault.InBody?;
      ghost var n := 0;
      NoCopies(released, segment);
      if !raised {
        if look.fault != InRelease(false) {
          released := released + multiset{segment};
          n := 1;
        }
        raised := look.fault != NoFault;
        if !raised {
          tracked := Without(tracked, i);
        }
      }
      if raised {
        if look.caught {
          OneCopyMore(old(released), segment, n);
          released := released + multiset{segment};
          n := n + 1;
        }
        tracked := Without(tracked, i);
      }
    }

    static lemma NoCopies(given: multiset<nat>, segment: nat)
      ensures given + Copies(segment, 0) == given && given + Copies(segment, 1) == given + multiset{segment}
    {
    }

    static lemma OneCopyMore(given: multiset<nat>, segment: nat, n: nat)
      ensures given + Copies(segment, n) + multiset{segment} == given + Copies(segment, n + 1)
    {
    }

    /** What becomes of a segment whose step left it in this state. */
    method Settle(i: nat, look: Look, state: Tracked)
      requires i < |tracked| && state == Sending(tracked[i].state, look).0
      modifies this
      ensures View() == old(View()).(followed := Pumped(old(tracked), i, look),
                                     released := old(released) + Freed(old(tracked)[i], look))
      ensures sent == old(sent)
    {
      PumpedIs(tracked, i, look, state);
      if look.complete || look.fault.InBody? {
        LetGo(i, look);
      } else {
        NoCopies(released, tracked[i].segment);
        tracked := tracked[i := Followed(tracked[i].segment, state)];
      }
    }

    /** One followed segment is pumped. */
    method PumpAt(i: nat, look: Look) returns (done: bool)
      requires hand == None && i < |tracked|
      modifies this
      ensures View() == BookStep(old(View()), PumpStep(i, look))
      ensures sent == old(sent) + Sending(old(tracked)[i].state, look).1
      ensures done == (look.complete || look.fault.InBody?)
    {
      var state, messages := PumpSegment(tracked[i].state, look);
      sent := sent + messages;
      Settle(i, look, state);
      done := look.complete || look.fault.InBody?;
    }

    static lemma PumpedIs(followed: seq<Followed>, i: nat, look: Look, state: Tracked)
      requires i < |followed| && state == Sending(followed[i].state, look).0
      ensures var done, o := look.complete || look.fault.InBody?, PumpOne(followed[i].state, look);
              && o.done == done && o.messages == Sending(followed[i].state, look).1
              && Pumped(followed, i, look) ==
                 (if done then Without(followed, i) else followed[i := Followed(followed[i].segment, state)])
    {
    }

    /** The list after k turns of a pump: of the first k segments those still
        followed, then the others as they were. */
    static function Midway(was: seq<Followed>, looks: seq<Look>, k: nat): seq<Followed>
      requires k <= |was| == |looks|
    {
      Remaining(was[..k], looks[..k]) + was[k..]
    }

    /** The entry of a segment after its pump step, if it is still followed. */
    static function Left(f: Followed, look: Look): seq<Followed> {
      if look.complete || look.fault.InBody? then [] else [Followed(f.segment, Sending(f.state, look).0)]
    }

    /** The segments still followed after a pump, in order. */
    static function Remaining(was: seq<Followed>, looks: seq<Look>): seq<Followed>
      requires |was| == |looks|
    {
      if was == [] then []
      else
        var n := |was| - 1;
        Remaining(was[..n], looks[..n]) + Left(was[n], looks[n])
    }

    /** The messages of a pump behind those sent before: each segment's, in order. */
    static function Sent(before: seq<Message>, was: seq<Followed>, looks: seq<Look>): seq<Message>
      requires |was| == |looks|
    {
      if was == [] then before
      else
        var n := |was| - 1;
        Sent(before, was[..n], looks[..n]) + Sending(was[n].state, looks[n]).1
    }

    /** The counts given back after a pump, behind those given back before. */
    static function Given(before: multiset<nat>, was: seq<Followed>, looks: seq<Look>): multiset<nat>
      requires |was| == |looks|
    {
      if was == [] then before
      else
        var n := |was| - 1;
        Given(before, was[..n], looks[..n]) + Freed(was[n], looks[n])
    }

    static lemma GivenNext(before: multiset<nat>, was: seq<Followed>, looks: seq<Look>, k: nat)
      requires k < |was| == |looks|
      ensures Given(before, was[..k + 1], looks[..k + 1]) ==
              Given(before, was[..k], looks[..k]) + Freed(was[k], looks[k])
    {
      assert was[..k + 1][..k] == was[..k] && looks[..k + 1][..k] == looks[..k];
    }

    static lemma RemainingNext(was: seq<Followed>, looks: seq<Look>, k: nat)
      requires k < |was| == |looks|
      ensures Remaining(was[..k + 1], looks[..k + 1]) == Remaining(was[..k], looks[..k]) + Left(was[k], looks[k])
    {
      assert was[..k + 1][..k] == was[..k] && looks[..k + 1][..k] == looks[..k];
    }

    static lemma SentNext(before: seq<Message>, was: seq<Followed>, looks: seq<Look>, k: nat)
      requires k < |was| == |looks|
      ensures Sent(before, was[..k + 1], looks[..k + 1]) ==
              Sent(before, was[..k], looks[..k]) + Sending(was[k].state, looks[k]).1
    {
      assert was[..k + 1][..k] == was[..k] && looks[..k + 1][..k] == looks[..k];
    }

    /** A pump step removes or replaces the entry behind the kept ones. */
    static lemma PumpedBehind(kept: seq<Followed>, rest: seq<Followed>, look: Look)
      requires rest != []
      ensures (kept + rest)[|kept|] == rest[0]
      ensures Pumped(kept + rest, |kept|, look) == kept + Left(rest[0], look) + rest[1..]
    {
      PumpedIs(kept + rest, |kept|, look, Sending(rest[0].state, look).0);
    }

    static lemma MidwayNext(was: seq<Followed>, looks: seq<Look>, k: nat)
      requires k < |was| == |looks|
      ensures var list, i := Midway(was, looks, k), |Remaining(was[..k], looks[..k])|;
              && i < |list| && list[i] == was[k]
              && Pumped(list, i, looks[k]) == Midway(was, looks, k + 1)
              && |Remaining(was[..k + 1], looks[..k + 1])| ==
                 (if looks[k].complete || looks[k].fault.InBody? then i else i + 1)
    {
      RemainingNext(was, looks, k);
      assert was[k..][1..] == was[k + 1..];
      PumpedBehind(Remaining(was[..k], looks[..k]), was[k..], looks[k]);
    }

    /** One turn of the iterator: the next segment is pumped, and the iterator
        moves on unless that removed it. */
    method PumpNext(i: nat, look: Look, ghost was: seq<Followed>, ghost looks: seq<Look>, ghost k: nat)
      returns (next: nat)
      requires hand == None && k < |was| == |looks| && look == looks[k]
      requires i == |Remaining(was[..k], looks[..k])| && tracked == Midway(was, looks, k)
      modifies this
      ensures received == old(received) && incoming == old(incoming) && hand == None
      ensures released == old(released) + Freed(was[k], looks[k])
      ensures next == |Remaining(was[..k + 1], looks[..k + 1])| && tracked == Midway(was, looks, k + 1)
      ensures sent == old(sent) + Sending(was[k].state, looks[k]).1
    {
      MidwayNext(was, looks, k);
      var done := PumpAt(i, look);
      next := if done then i else i + 1;
    }

    /** One pump over all followed segments; looks are in list order. */
    method Pump(looks: seq<Look>)
      requires hand == None && |looks| == |tracked|
      modifies this
      ensures received == old(received) && incoming == old(incoming) && hand == None
      ensures released == Given(old(released), old(tracked), looks)
      ensures tracked == Remaining(old(tracked), looks)
      ensures sent == Sent(old(sent), old(tracked), looks)
    {
      ghost var was := tracked;
      var i := 0;
      WholeSlices(was, looks);
      for k := 0 to |looks|
        invariant received == old(received) && incoming == old(incoming) && hand == None
        invariant released == Given(old(released), was[..k], looks[..k])
        invariant i == |Remaining(was[..k], looks[..k])| && tracked == Midway(was, looks, k)
        invariant sent == Sent(old(sent), was[..k], looks[..k])
      {
        SentNext(old(sent), was, looks, k);
        GivenNext(old(released), was, looks, k);
        i := PumpNext(i, looks[k], was, looks, k);
      }
    }

    static lemma WholeSlices(was: seq<Followed>, looks: seq<Look>)
      requires |was| == |looks|
      ensures was[..|was|] == was && looks[..|was|] == looks
      ensures Midway(was, looks, 0) == was && Midway(was, looks, |was|) == Remaining(was, looks)
    {
      assert was[..|was|] == was && looks[..|was|] == looks;
    }

    /** With the pump stopped: everything still held is released. */
    method Dispose()
      requires hand == None
      modifies this
      ensures View() == BookStep(old(View()), BookOp.Dispose) && sent == old(sent)
    {
      ReleaseTracked();
      ReleaseIncoming();
    }

    method ReleaseTracked()
      modifies this
      ensures View() == old(View()).(followed := [], released := old(released) + multiset(Ids(old(tracked))))
      ensures sent == old(sent)
    {
      ghost var ids := Ids(tracked);
      for i := 0 to |tracked|
        invariant View() == old(View()).(released := released) && sent == old(sent)
        invariant released == old(released) + multiset(ids[..i])
      {
        assert ids[..i + 1] == ids[..i] + [ids[i]];
        released := released + multiset{tracked[i].segment};
      }
      assert ids[..|ids|] == ids;
      tracked := [];
    }

    method ReleaseIncoming()
      modifies this
      ensures View() == old(View()).(incoming := [], released := old(released) + multiset(old(incoming)))
      ensures sent == old(sent)
    {
      while incoming != []
        invariant View() == old(View()).(incoming := incoming, released := released) && sent == old(sent)
        invariant released + multiset(incoming) == old(released) + multiset(old(incoming))
        decreases |incoming|
      {
        assert incoming == [incoming[0]] + incoming[1..];
        released := released + multiset{incoming[0]};
        incoming := incoming[1..];
      }
    }
  }
}
