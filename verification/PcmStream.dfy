/** The stream protocol of audio/pcm_decode.c: a WAV header, then buffers up to the one marked final. */
module PcmStream {
  import opened Arithmetic
  import opened PcmSpec

  const AUDIO_SUBSAMPLE_NONE := 0
  const HEADER := 44  // sizeof(struct wav_header_s)
  const EINVAL := 22
  const OK := 0

  datatype Format = Format(nchannels: nat, samprate: nat, byterate: nat, align: nat, bpsamp: nat)

  function U16(h: seq<byte>, i: nat): nat
    requires i + 2 <= |h|
  {
    h[i] as nat + 256 * (h[i + 1] as nat)
  }

  function U32(h: seq<byte>, i: nat): nat
    requires i + 4 <= |h|
  {
    U16(h, i) + 65536 * U16(h, i + 2)
  }

  predicate ValidWav(h: seq<byte>)
    requires |h| >= HEADER
  {
    && U32(h, 0) == 0x46464952 && U32(h, 8) == 0x45564157                        // "RIFF", "WAVE"
    && U32(h, 12) == 0x20746d66 && U32(h, 16) == 16 && U16(h, 20) == 1           // "fmt ", PCM
    && U16(h, 22) < 256 && U16(h, 32) < 256 && U16(h, 34) < 256
    && U32(h, 36) == 0x61746164                                                  // "data"
  }

  function FormatOf(h: seq<byte>): Format
    requires |h| >= HEADER
  {
    Format(U16(h, 22), U32(h, 24), U32(h, 28), U16(h, 32), U16(h, 34))
  }

  /** pcm_validwav, byte by byte: the four chunk tags, a format chunk of 16 bytes holding PCM, and channel count, sample
      size and sample width below 256. */
  lemma ValidWavBytes(h: seq<byte>)
    requires |h| >= HEADER
    ensures ValidWav(h) <==>
            && h[0..4] == ['R' as byte, 'I' as byte, 'F' as byte, 'F' as byte]
            && h[8..12] == ['W' as byte, 'A' as byte, 'V' as byte, 'E' as byte]
            && h[12..16] == ['f' as byte, 'm' as byte, 't' as byte, ' ' as byte]
            && h[16..20] == [16, 0, 0, 0] && h[20..22] == [1, 0]
            && h[23] == 0 && h[33] == 0 && h[35] == 0
            && h[36..40] == ['d' as byte, 'a' as byte, 't' as byte, 'a' as byte]
  {
  }

  /** The fields that pcm_parsewav keeps, least significant byte first. */
  lemma FormatBytes(h: seq<byte>)
    requires |h| >= HEADER && ValidWav(h)
    ensures var f := FormatOf(h);
            && f.nchannels == h[22] as nat && f.align == h[32] as nat && f.bpsamp == h[34] as nat
            && f.samprate == h[24] as nat + 0x100 * h[25] as nat + 0x1_0000 * h[26] as nat + 0x100_0000 * h[27] as nat
            && f.byterate == h[28] as nat + 0x100 * h[29] as nat + 0x1_0000 * h[30] as nat + 0x100_0000 * h[31] as nat
  {
  }

  /** passed: the bytes given to the lower device so far; completed: AUDIO_CALLBACK_COMPLETE callbacks. */
  datatype Dec = Dec(streaming: bool, fmt: Format, subsample: nat, phase: Phase, passed: seq<byte>, completed: nat)

  /** Filtering one buffer and giving it to the lower device. */
  function Given(d: Dec, data: seq<byte>): Dec
  {
    if d.subsample == AUDIO_SUBSAMPLE_NONE then d.(passed := d.passed + data)
    else
      var gap := Gap(d.fmt.align, d.subsample);
      d.(passed := d.passed + Kept(d.phase, d.fmt.align, gap, data),
         phase := PhaseAfter(d.phase, d.fmt.align, gap, data))
  }

  predicate HasHeader(data: seq<byte>)
  {
    |data| >= HEADER && ValidWav(data)
  }

  /** pcm_enqueuebuffer, where configured and accepted are what the lower device answers if it is called. */
  function Enqueued(d: Dec, data: seq<byte>, last: bool, configured: int, accepted: int): Dec
  {
    if d.streaming then Given(d.(streaming := !last), data)
    else if |data| < HEADER then d
    else if !ValidWav(data) then d.(completed := d.completed + 1)
    else if configured < 0 then d.(fmt := FormatOf(data))
    else
      var d' := Given(d.(fmt := FormatOf(data)), data[HEADER..]);
      if accepted == OK then d'.(streaming := !last) else d'.(completed := d'.completed + 1)
  }

  function Answer(d: Dec, data: seq<byte>, configured: int, accepted: int): int
  {
    if d.streaming then accepted
    else if !HasHeader(data) then -EINVAL
    else if configured < 0 then configured
    else if accepted == OK then OK
    else -EINVAL
  }

  /** What becomes of a buffer in each case: inside a stream it goes on to the lower device and its answer is
      returned; outside, it needs a header that the lower device accepts, or nothing is passed on. */
  lemma EnqueueOutcomes(d: Dec, data: seq<byte>, last: bool, configured: int, accepted: int)
    ensures var e, r := Enqueued(d, data, last, configured, accepted), Answer(d, data, configured, accepted);
            && (d.streaming ==> r == accepted && e.fmt == d.fmt && e.completed == d.completed && e.streaming == !last)
            && (!d.streaming && |data| < 44 ==> r == -22 && e == d)
            && (!d.streaming && |data| >= 44 && !ValidWav(data) ==> r == -22 && e == d.(completed := d.completed + 1))
            && (!d.streaming && HasHeader(data) && configured < 0 ==> r == configured && e == d.(fmt := FormatOf(data)))
            && (!d.streaming && HasHeader(data) && configured >= 0 && accepted != 0 ==>
                  r == -22 && !e.streaming && e.completed == d.completed + 1)
            && (!d.streaming && HasHeader(data) && configured >= 0 && accepted == 0 ==>
                  r == 0 && e.streaming == !last && e.completed == d.completed && e.fmt == FormatOf(data))
            && (e.passed != d.passed ==> d.streaming || (HasHeader(data) && configured >= 0))
  {
  }

  /** pcm_subsample_configure. */
  function Configured(d: Dec, subsample: nat): Dec
  {
    if d.subsample == AUDIO_SUBSAMPLE_NONE || subsample == AUDIO_SUBSAMPLE_NONE then
      if d.subsample == subsample then d else d.(phase := Phase(0, 0), subsample := subsample)
    else d.(subsample := subsample)
  }

  /** Whether the filter, if it is on, can carry on with samples of this format. */
  ghost predicate Ready(d: Dec, fmt: Format)
  {
    d.subsample != AUDIO_SUBSAMPLE_NONE ==> Fits(d.phase, fmt.align)
  }

  /** Whether pcm_subsample can filter a window of n bytes; it is not asked to in normal play. */
  ghost predicate Able(d: Dec, align: nat, n: nat)
  {
    d.subsample != AUDIO_SUBSAMPLE_NONE ==> Safe(d.phase, align, n)
  }

  lemma {:induction false} StaysInPhase(p: Phase, align: nat, gap: nat, data: seq<byte>)
    requires Fits(p, align) && align < 256 && gap < 256
    ensures InPhase(PhaseAfter(p, align, gap, data), align)
    decreases |data|
  {
    if data != [] {
      StaysInPhase(Advance(Settle(p, align, gap), align, gap), align, gap, data[1..]);
    }
  }

  /** Within a stream, neither a buffer nor a change of rate leaves the filter out of phase. */
  lemma StaysReady(d: Dec, data: seq<byte>, last: bool, accepted: int, rate: nat)
    requires d.streaming && 0 < d.fmt.align < 256 && Ready(d, d.fmt)
    ensures Ready(Enqueued(d, data, last, OK, accepted), d.fmt)
    ensures Ready(Configured(d, rate), d.fmt)
  {
    if d.subsample != AUDIO_SUBSAMPLE_NONE {
      StaysInPhase(d.phase, d.fmt.align, Gap(d.fmt.align, d.subsample), data);
    }
  }

  // -------------------------------------------------------------------------
  // Whole streams, with a lower device that accepts everything

  datatype Buffer = Buffer(data: seq<byte>, last: bool)

  function Play(d: Dec, buffers: seq<Buffer>): Dec
    decreases |buffers|
  {
    if buffers == [] then d else Play(Enqueued(d, buffers[0].data, buffers[0].last, OK, OK), buffers[1..])
  }

  function Payload(buffers: seq<Buffer>): seq<byte>
  {
    if buffers == [] then [] else buffers[0].data + Payload(buffers[1..])
  }

  ghost predicate OnlyLastIsFinal(buffers: seq<Buffer>)
  {
    forall i :: 0 <= i < |buffers| - 1 ==> !buffers[i].last
  }

  lemma GivenTwice(d: Dec, x: seq<byte>, y: seq<byte>)
    ensures Given(Given(d, x), y) == Given(d, x + y)
  {
    hide Kept, PhaseAfter, Gap;
    KeptConcat(d.phase, d.fmt.align, Gap(d.fmt.align, d.subsample), x, y);
    assert d.passed + (x + y) == d.passed + x + y;
  }

  lemma GivenKeepsStreaming(d: Dec, data: seq<byte>, streaming: bool)
    ensures Given(d.(streaming := streaming), data) == Given(d, data).(streaming := streaming)
    ensures Given(d, data).streaming == d.streaming && Given(d, data).fmt == d.fmt
  {
  }

  /** Buffers after the header are one filter on their concatenation, and streaming ends with the final one. */
  lemma {:induction false} PlayRest(d: Dec, buffers: seq<Buffer>)
    requires d.streaming && buffers != [] && OnlyLastIsFinal(buffers)
    ensures Play(d, buffers) == Given(d, Payload(buffers)).(streaming := !buffers[|buffers| - 1].last)
    decreases |buffers|
  {
    hide Given, HasHeader, ValidWav, FormatOf;
    var first, rest := buffers[0], buffers[1..];
    var d' := Enqueued(d, first.data, first.last, OK, OK);
    GivenKeepsStreaming(d, first.data, !first.last);
    if rest == [] {
      assert first.data + Payload(rest) == first.data;
    } else {
      PlayRest(d', rest);
      GivenTwice(d, first.data, Payload(rest));
    }
  }

  lemma FirstBuffer(d: Dec, first: Buffer)
    requires !d.streaming && HasHeader(first.data)
    ensures |first.data| >= HEADER
    ensures Enqueued(d, first.data, first.last, OK, OK) ==
            Given(d.(fmt := FormatOf(first.data)), first.data[HEADER..]).(streaming := !first.last)
  {
    hide Given, ValidWav, FormatOf;
  }

  /** From the first buffer to the final one, the lower device is given exactly the filtered bytes after the
      header, and streaming is true exactly between those two buffers. */
  lemma WholeStream(d: Dec, buffers: seq<Buffer>)
    requires !d.streaming && buffers != [] && HasHeader(buffers[0].data) && OnlyLastIsFinal(buffers)
    ensures Play(d, buffers) ==
            Given(d.(fmt := FormatOf(buffers[0].data)), Payload(buffers)[HEADER..])
              .(streaming := !buffers[|buffers| - 1].last)
  {
    hide Given, HasHeader, FormatOf, Enqueued;
    var first, rest := buffers[0], buffers[1..];
    FirstBuffer(d, first);
    var d0 := d.(fmt := FormatOf(first.data));
    var d1 := Given(d0, first.data[HEADER..]);
    var d' := Enqueued(d, first.data, first.last, OK, OK);
    assert Payload(buffers)[HEADER..] == first.data[HEADER..] + Payload(rest);
    if rest == [] {
      assert first.data[HEADER..] + Payload(rest) == first.data[HEADER..];
    } else {
      GivenTwice(d0, first.data[HEADER..], Payload(rest));
      PlayRest(d', rest);
      GivenKeepsStreaming(d1, Payload(rest), true);
    }
  }

  lemma StreamingBetweenFirstAndFinal(d: Dec, buffers: seq<Buffer>, n: nat)
    requires !d.streaming && buffers != [] && HasHeader(buffers[0].data)
    requires OnlyLastIsFinal(buffers) && buffers[|buffers| - 1].last && n <= |buffers|
    ensures Play(d, buffers[..n]).streaming <==> 0 < n < |buffers|
  {
    hide Given, ValidWav, FormatOf;
    if n > 0 {
      WholeStream(d, buffers[..n]);
    }
  }

  /** Fast forward from the start of a stream keeps the first align bytes of every align * subsample. */
  lemma SubsampledPlay(d: Dec, buffers: seq<Buffer>)
    requires !d.streaming && buffers != [] && HasHeader(buffers[0].data) && OnlyLastIsFinal(buffers)
    requires d.subsample != AUDIO_SUBSAMPLE_NONE && d.phase == Phase(0, 0)
    requires FormatOf(buffers[0].data).align > 0 && FormatOf(buffers[0].data).align * (d.subsample - 1) < 256
    ensures var align := FormatOf(buffers[0].data).align;
            && align * d.subsample > 0
            && Play(d, buffers).passed == d.passed + Select(Payload(buffers)[HEADER..], 0, align, align * d.subsample)
  {
    hide ValidWav, FormatOf, Play, Kept, PhaseAfter, Gap, Select;
    var align := FormatOf(buffers[0].data).align;
    WholeStream(d, buffers);
    IntendedExactlyWhenGapFits(align, d.subsample);
    assert Kept(Phase(0, 0), align, Gap(align, d.subsample), Payload(buffers)[HEADER..])
        == Select(Payload(buffers)[HEADER..], 0, align, align * d.subsample);
  }

  /** The rate may change between any two buffers of a stream. Faster or slower, the bytes already owed are
      still kept or dropped and then the new period starts; starting from normal play a period starts at
      once; going back to normal play everything passes. */
  lemma RateChangeMidStream(d: Dec, subsample: nat, buffers: seq<Buffer>)
    requires d.streaming && buffers != [] && OnlyLastIsFinal(buffers) && Fits(d.phase, d.fmt.align)
    ensures var align, gap := d.fmt.align, Gap(d.fmt.align, subsample);
            Play(Configured(d, subsample), buffers).passed == d.passed +
            if subsample == AUDIO_SUBSAMPLE_NONE then Payload(buffers)
            else if d.subsample == AUDIO_SUBSAMPLE_NONE then Select(Payload(buffers), 0, align, align + gap)
            else AfterOwed(d.phase, align, gap, Payload(buffers))
  {
    hide Kept, PhaseAfter, Select, AfterOwed, Gap, Play;
    var align, gap := d.fmt.align, Gap(d.fmt.align, subsample);
    PlayRest(Configured(d, subsample), buffers);
    if subsample == AUDIO_SUBSAMPLE_NONE {
    } else if d.subsample == AUDIO_SUBSAMPLE_NONE {
      Remainder(0, align + gap, 0, 0);
      KeptIsSelect(0, align, gap, Payload(buffers));
    } else {
      RateChange(d.phase, align, gap, Payload(buffers));
    }
  }

  // -------------------------------------------------------------------------
  // The stream after

  /** The beginning of a stream, from its header on, with fast forward on. */
  ghost predicate Begins(d: Dec, buffers: seq<Buffer>)
  {
    && !d.streaming && d.subsample != AUDIO_SUBSAMPLE_NONE
    && buffers != [] && HasHeader(buffers[0].data) && OnlyLastIsFinal(buffers)
  }

  ghost predicate FullStream(d: Dec, buffers: seq<Buffer>)
  {
    Begins(d, buffers) && buffers[|buffers| - 1].last
  }

  /** The phase that a stream leaves behind, whatever phase it found. */
  lemma PhaseAfterStream(d: Dec, first: seq<Buffer>)
    requires FullStream(d, first) && Ready(d, FormatOf(first[0].data))
    ensures var align := FormatOf(first[0].data).align;
            var d' := Play(d, first);
            && d' == d.(fmt := FormatOf(first[0].data), phase := d'.phase, passed := d'.passed)
            && d'.phase == PhaseFrom(d.phase, align, Gap(align, d.subsample), |Payload(first)| - HEADER)
  {
    hide ValidWav, FormatOf, Play, Kept, PhaseAfter, PhaseFrom, Gap, Select;
    var align := FormatOf(first[0].data).align;
    WholeStream(d, first);
    PhaseAfterFrom(d.phase, align, Gap(align, d.subsample), Payload(first)[HEADER..]);
  }

  /** Neither end of a stream resets the phase, so the samples of the next stream, of any size, must fit it:
      exactly when they have bytes and the stream did not end further inside a sample than they reach. */
  lemma NextHeaderFitsExactlyWhen(d: Dec, first: seq<Buffer>, fmt: Format)
    requires FullStream(d, first) && Ready(d, FormatOf(first[0].data)) && FormatOf(first[0].data).align < 256
    ensures var align, k := FormatOf(first[0].data).align, |Payload(first)| - HEADER;
            var inside := PhaseFrom(d.phase, align, Gap(align, d.subsample), k).npartial;
            Ready(Play(d, first), fmt) <==> 0 < fmt.align && inside <= fmt.align
  {
    hide ValidWav, FormatOf, Play, Kept, PhaseAfter, PhaseFrom, Gap;
    var align := FormatOf(first[0].data).align;
    PhaseAfterStream(d, first);
    PhaseAfterFrom(d.phase, align, Gap(align, d.subsample), Payload(first)[HEADER..]);
    StaysInPhase(d.phase, align, Gap(align, d.subsample), Payload(first)[HEADER..]);
  }

  /** A next stream whose samples fit is filtered as a continuation: first what the stream before left owed,
      then a new period. */
  lemma NextStreamContinues(d: Dec, first: seq<Buffer>, second: seq<Buffer>)
    requires FullStream(d, first) && Ready(d, FormatOf(first[0].data))
    requires Begins(Play(d, first), second) && Ready(Play(d, first), FormatOf(second[0].data))
    ensures var a1, a2 := FormatOf(first[0].data).align, FormatOf(second[0].data).align;
            var k, mid, payload := |Payload(first)| - HEADER, Play(d, first), Payload(second)[HEADER..];
            && mid.phase == PhaseFrom(d.phase, a1, Gap(a1, d.subsample), k) && Fits(mid.phase, a2)
            && Play(mid, second).passed == mid.passed + AfterOwed(mid.phase, a2, Gap(a2, d.subsample), payload)
  {
    hide ValidWav, FormatOf, Play, Kept, PhaseAfter, PhaseFrom, Gap, Select, AfterOwed;
    var a2 := FormatOf(second[0].data).align;
    var mid, payload := Play(d, first), Payload(second)[HEADER..];
    PhaseAfterStream(d, first);
    WholeStream(mid, second);
    RateChange(mid.phase, a2, Gap(a2, d.subsample), payload);
  }

  /** With samples of the same size the selection goes on from the position at which the first stream ended. */
  lemma SameSizeContinues(d: Dec, first: seq<Buffer>, second: seq<Buffer>, j: nat)
    requires FullStream(d, first) && FormatOf(first[0].data).align > 0
    requires d.phase == PhaseAt(j, FormatOf(first[0].data).align, Gap(FormatOf(first[0].data).align, d.subsample))
    requires Begins(Play(d, first), second) && FormatOf(second[0].data).align == FormatOf(first[0].data).align
    ensures var align := FormatOf(first[0].data).align;
            var gap, k := Gap(align, d.subsample), |Payload(first)| - HEADER;
            && Play(d, first).phase == PhaseAt(j + k, align, gap)
            && Play(Play(d, first), second).passed ==
               Play(d, first).passed + Select(Payload(second)[HEADER..], j + k, align, align + gap)
  {
    hide ValidWav, FormatOf, Play, Kept, PhaseAfter, PhaseAt, Gap, Select;
    var align := FormatOf(first[0].data).align;
    var gap, k := Gap(align, d.subsample), |Payload(first)| - HEADER;
    WholeStream(d, first);
    PhaseAfterAt(j, align, gap, Payload(first)[HEADER..]);
    WholeStream(Play(d, first), second);
    KeptIsSelect(j + k, align, gap, Payload(second)[HEADER..]);
  }

  /** A stream that starts where the filter is at position k is filtered as if from the start, whatever its
      bytes, exactly when k is a whole number of periods (or nothing is ever dropped). */
  lemma FreshStartExactlyWhen(k: nat, align: nat, period: nat)
    requires 0 < align <= period
    ensures (forall data :: Select(data, k, align, period) == Select(data, 0, align, period))
            <==> k % period == 0 || period == align
  {
    var gap := period - align;
    var r := k % period;
    Remainder(0, period, 0, 0);
    if r == 0 || gap == 0 {
      forall data ensures Select(data, k, align, period) == Select(data, 0, align, period) {
        SelectPeriodic(data, k, 0, align, period);
      }
    } else {
      var n := if r < align then align - r else 0;
      var data := seq(n + 1, _ => 0);
      assert data == data[..n] + data[n..] && data[n..] == [0];
      KeptIsSelect(k, align, gap, data);
      KeptConcat(PhaseAt(k, align, gap), align, gap, data[..n], data[n..]);
      if r < align {
        KeptCopies(PhaseAt(k, align, gap), align, gap, data[..n]);
      }
      KeptSkips(PhaseAfter(PhaseAt(k, align, gap), align, gap, data[..n]), align, gap, data[n..]);
      KeptIsSelect(0, align, gap, data);
      KeptCopies(Phase(0, 0), align, gap, data);
      assert |Select(data, k, align, period)| == n && |Select(data, 0, align, period)| == n + 1;
    }
  }

  lemma {:induction false} SelectPeriodic(data: seq<byte>, k: nat, k': nat, align: nat, period: nat)
    requires 0 < period && (k % period == k' % period || period == align)
    ensures Select(data, k, align, period) == Select(data, k', align, period)
    decreases |data|
  {
    if data != [] {
      if period != align {
        NextRemainder(k, period);
        NextRemainder(k', period);
      }
      SelectPeriodic(data[1..], k + 1, k' + 1, align, period);
    }
  }

  // -------------------------------------------------------------------------
  // Streams after which the code cannot carry on

  /** A header of the given channels, sample size and bits per sample. */
  function Header(nchannels: byte, align: byte, bpsamp: byte): (h: seq<byte>)
    ensures |h| == HEADER
  {
    [0x52, 0x49, 0x46, 0x46, 0, 0, 0, 0, 0x57, 0x41, 0x56, 0x45] +
    [0x66, 0x6d, 0x74, 0x20, 16, 0, 0, 0, 1, 0, nchannels, 0, 0x40, 0x1f, 0, 0, 0, 0, 0, 0, align, 0, bpsamp, 0] +
    [0x64, 0x61, 0x74, 0x61, 0, 0, 0, 0]
  }

  lemma HeaderAccepted(nchannels: byte, align: byte, bpsamp: byte, payload: seq<byte>)
    ensures HasHeader(Header(nchannels, align, bpsamp) + payload)
    ensures FormatOf(Header(nchannels, align, bpsamp) + payload) == Format(nchannels, 8000, 0, align, bpsamp)
  {
  }

  /** Fast forward stays on, a stereo stream of 16-bit samples ends three bytes into a sample, and the next
      header announces mono samples of 8 bits: two ordinary formats. Completing the sample would copy
      2^32 - 2 bytes. */
  lemma LeftoverOverruns(d: Dec, n: nat)
    requires !d.streaming && d.subsample == 2 && d.phase == Phase(0, 0) && n < 0x1_0000_0000 - 2
    ensures var first := [Buffer(Header(2, 4, 16) + [1, 2, 3], true)];
            var mid := Play(d, first);
            && FullStream(d, first) && mid.phase == Phase(3, 0)
            && HasHeader(Header(1, 1, 8)) && !Ready(mid, FormatOf(Header(1, 1, 8)))
            && CopySize(1, mid.phase.npartial) == 0x1_0000_0000 - 2
            && !RunsToEnd(mid.phase, 1, d.subsample, n)
  {
    hide Play, Kept, PhaseAfter, FormatOf, ValidWav, HasHeader, Header;
    var data := Header(2, 4, 16) + [1, 2, 3];
    var first := [Buffer(data, true)];
    HeaderAccepted(2, 4, 16, [1, 2, 3]);
    HeaderAccepted(1, 1, 8, []);
    assert Header(1, 1, 8) + [] == Header(1, 1, 8);
    assert first[1..] == [] && Payload(first[1..]) == [] && Payload(first) == data;
    PhaseAfterStream(d, first);
    assert Gap(4, 2) == 4 && PhaseAt(3, 4, 4) == Phase(3, 0);
  }

  /** Samples of no bytes: a header with four bits per sample is accepted, and its first payload byte after
      any gap is never passed: the loop does not end. */
  lemma NoBytesNeverEnds(p: Phase, subsample: nat, payload: seq<byte>)
    requires p.npartial == 0 && |payload| > p.skip
    ensures HasHeader(Header(1, 0, 4) + payload)
    ensures !RunsToEnd(p, FormatOf(Header(1, 0, 4) + payload).align, subsample, |payload|)
  {
    hide FormatOf, HasHeader, Header;
    HeaderAccepted(1, 0, 4, payload);
    EndsExactlyWhen(Loop(p, |payload|), 0, subsample);
  }
}
