/** audio/pcm_decode.c: sub-sampling in place, and the streaming state around it. */
module Pcm {
  import opened PcmSpec
  import opened PcmStream

  /** struct ap_buffer_s: the bytes to process are samp[curbyte..nbytes]. */
  class ApBuffer {
    const samp: array<byte>
    const nmaxbytes: nat
    var nbytes: nat
    var curbyte: nat
    const last: bool  // AUDIO_APB_FINAL

    constructor (samp: array<byte>, nbytes: nat, curbyte: nat, last: bool)
      requires curbyte <= nbytes <= samp.Length
      ensures Valid() && this.samp == samp && this.nbytes == nbytes && this.curbyte == curbyte && this.last == last
    {
      this.samp, this.nmaxbytes, this.nbytes, this.curbyte, this.last := samp, samp.Length, nbytes, curbyte, last;
    }

    ghost predicate Valid()
      reads this
    {
      curbyte <= nbytes <= nmaxbytes == samp.Length
    }

    ghost function Window(): seq<byte>
      requires Valid()
      reads this, samp
    {
      samp[curbyte..nbytes]
    }
  }

  /** The byte loop "*dest++ = *src++": safe downwards, even where the two ranges overlap. */
  method CopyDown(samp: array<byte>, dest: nat, src: nat, n: nat)
    requires dest <= src && src + n <= samp.Length
    modifies samp
    ensures samp[..dest + n] == old(samp[..dest]) + old(samp[src..src + n])
    ensures samp[src + n..] == old(samp[src + n..])
  {
    ghost var s := samp[..];
    for i := 0 to n
      invariant samp[..dest + i] == s[..dest] + s[src..src + i]
      invariant samp[src + i..] == s[src + i..]
    {
      samp[dest + i] := samp[src + i];
      assert samp[..dest + i + 1] == s[..dest] + s[src..src + i] + [s[src + i]];
      assert s[src..src + i + 1] == s[src..src + i] + [s[src + i]];
    }
  }

  /** What has been done in place: of input, all but the last nbytes - from bytes have been filtered into
      s[..total], leaving phase p; the rest is still untouched at s[from..nbytes]. */
  ghost predicate Filtered(s: seq<byte>, p0: Phase, p: Phase, align: nat, gap: nat, input: seq<byte>,
                           from: nat, total: nat, nbytes: nat)
    requires from <= nbytes <= |s| && nbytes - from <= |input|
  {
    var done := |input| - (nbytes - from);
    && total <= from
    && s[..total] == Kept(p0, align, gap, input[..done])
    && p == PhaseAfter(p0, align, gap, input[..done])
    && s[from..nbytes] == input[done..]
  }

  /** One chunk s[from..from + consumed] has been filtered down to s'[total..total + copied]. */
  ghost predicate Moved(s: seq<byte>, s': seq<byte>, p: Phase, p': Phase, align: nat, gap: nat,
                        from: nat, total: nat, consumed: nat, copied: nat)
    requires |s| == |s'| && from + consumed <= |s| && total <= from && copied <= consumed
  {
    && s'[..total + copied] == s[..total] + Kept(p, align, gap, s[from..from + consumed])
    && p' == PhaseAfter(p, align, gap, s[from..from + consumed])
    && s'[from + consumed..] == s[from + consumed..]
  }

  lemma FilteredBounds(s: seq<byte>, p0: Phase, p: Phase, align: nat, gap: nat, input: seq<byte>,
                       from: nat, total: nat, nbytes: nat)
    requires from <= nbytes <= |s| && nbytes - from <= |input|
    requires Filtered(s, p0, p, align, gap, input, from, total, nbytes)
    ensures total <= from
  {
  }

  lemma Slices<T>(s: seq<T>, i: nat, j: nat, n: nat)
    requires i <= j <= |s| && n <= j - i
    ensures s[i..j][..n] == s[i..i + n] && s[i..j][n..] == s[i + n..j]
  {
  }

  lemma FilteredStep(s: seq<byte>, s': seq<byte>, p0: Phase, p: Phase, p': Phase,
                     align: nat, gap: nat, input: seq<byte>,
                     from: nat, total: nat, nbytes: nat, consumed: nat, copied: nat)
    requires from <= nbytes <= |s| == |s'| && nbytes - from <= |input|
    requires copied <= consumed <= nbytes - from
    requires Filtered(s, p0, p, align, gap, input, from, total, nbytes)
    requires Moved(s, s', p, p', align, gap, from, total, consumed, copied)
    ensures Filtered(s', p0, p', align, gap, input, from + consumed, total + copied, nbytes)
  {
    hide Kept, PhaseAfter;
    var done := |input| - (nbytes - from);
    Slices(s, from, nbytes, consumed);
    Slices(input, done, |input|, consumed);
    Slices(s, from + consumed, |s|, nbytes - from - consumed);
    Slices(s', from + consumed, |s'|, nbytes - from - consumed);
    assert s[..|s|] == s && s'[..|s'|] == s' && input[..|input|] == input;
    NextChunk(p0, align, gap, input, done, consumed);
  }

  lemma FirstChunk(s: seq<byte>, s': seq<byte>, p: Phase, align: nat, gap: nat, at: nat, n: nat, nbytes: nat)
    requires |s| == |s'| && at + n <= nbytes <= |s|
    requires p.skip == 0 && p.npartial + n == align && 0 < align
    requires s'[..n] == s[at..at + n] && s'[at + n..] == s[at + n..]
    ensures Filtered(s', p, Phase(0, gap), align, gap, s[at..nbytes], at + n, n, nbytes)
  {
    hide Kept, PhaseAfter;
    KeptCopies(p, align, gap, s[at..at + n]);
    Slices(s, at, nbytes, n);
    Slices(s, at + n, |s|, nbytes - at - n);
    Slices(s', at + n, |s'|, nbytes - at - n);
    assert s[..|s|] == s && s'[..|s'|] == s';
  }

  /** C's conversion of an int to bool. */
  predicate ToBool(x: int)
  {
    x != 0
  }

  /** struct pcm_decode_s, with a record of what has been given to the lower device and of the callbacks. */
  class Decoder {
    var samprate: nat
    var byterate: nat
    var align: nat
    var bpsamp: nat
    var nchannels: nat
    var streaming: bool
    var subsample: nat
    var skip: nat
    var npartial: nat
    var passed: seq<byte>
    var completed: nat

    constructor ()
      ensures Valid() && State() == Dec(false, Format(0, 0, 0, 0, 0), AUDIO_SUBSAMPLE_NONE, Phase(0, 0), [], 0)
    {
      samprate, byterate, align, bpsamp, nchannels := 0, 0, 0, 0, 0;
      streaming, subsample, skip, npartial := false, AUDIO_SUBSAMPLE_NONE, 0, 0;
      passed, completed := [], 0;
    }

    /** The width of the fields, and that no gap is owed inside a sample. */
    ghost predicate Valid()
      reads this
    {
      align < 256 && Sound(Now())
    }

    ghost function State(): Dec
      reads this
    {
      Dec(streaming, Format(nchannels, samprate, byterate, align, bpsamp), subsample, Now(), passed, completed)
    }

    ghost function Now(): Phase
      reads this
    {
      Phase(npartial, skip)
    }

    /** The middle of pcm_subsample: complete a partial sample from the previous buffer. */
    method CompletePartial(apb: ApBuffer, skipsize: nat) returns (src: nat, dest: nat)
      requires apb.Valid() && Sound(Now()) && 0 < npartial <= align < 256
      requires npartial + (apb.nbytes - apb.curbyte) >= align
      modifies this`npartial, this`skip, apb.samp
      ensures apb.curbyte <= src <= apb.nbytes && dest <= src
      ensures npartial == 0 && skip == skipsize % 256
      ensures Filtered(apb.samp[..], old(Now()), Now(), align, skipsize % 256, old(apb.Window()), src, dest, apb.nbytes)
    {
      hide Filtered;
      src, dest := apb.curbyte, 0;
      var copysize := CopySize(align, npartial);
      if apb.curbyte > 0 {
        CopyDown(apb.samp, dest, src, copysize);
      }
      src, dest := src + copysize, dest + copysize;
      ghost var phase := Now();
      npartial := 0;
      skip := skipsize % 256;  // a uint8_t
      FirstChunk(old(apb.samp[..]), apb.samp[..], phase, align, skip, apb.curbyte, copysize, apb.nbytes);
    }

    /** One turn of the loop of pcm_subsample, with srcsize bytes left from src on. */
    method Turn(samp: array<byte>, src: nat, dest: nat, srcsize: nat, skipsize: nat)
      returns (consumed: nat, copied: nat)
      requires Sound(Now()) && npartial == 0 && align < 256
      requires 0 < srcsize && src + srcsize <= samp.Length && dest <= src
      modifies this`npartial, this`skip, samp
      ensures copied <= consumed <= srcsize && (consumed > 0 <==> align > 0 || old(skip) > 0)
      ensures consumed > 0 ==>
                Moved(old(samp[..]), samp[..], old(Now()), Now(), align, skipsize % 256, src, dest, consumed, copied)
      ensures Sound(Now()) && (npartial == 0 || (consumed == srcsize && npartial < align))
      ensures Loop(Now(), srcsize - consumed) == LoopTurn(Loop(old(Now()), srcsize), align, skipsize % 256)
    {
      if skip > 0 {
        var copysize := if skip < srcsize then skip else srcsize;
        KeptSkips(Now(), align, skipsize % 256, samp[src..src + copysize]);
        skip := skip - copysize;
        consumed, copied := copysize, 0;
      } else {
        var copysize;
        if srcsize < align {
          copysize := srcsize;
        } else {
          copysize := align;
        }
        if align > 0 {
          KeptCopies(Now(), align, skipsize % 256, samp[src..src + copysize]);
        }
        if srcsize < align {
          npartial := srcsize;
        } else {
          skip := skipsize % 256;  // a uint8_t
        }
        CopyDown(samp, dest, src, copysize);
        consumed, copied := copysize, copysize;
      }
    }

    /** The loop of pcm_subsample. */
    method FilterRest(samp: array<byte>, src: nat, dest: nat, nbytes: nat, skipsize: nat,
                      ghost p0: Phase, ghost input: seq<byte>)
      returns (total: nat)
      requires src <= nbytes <= samp.Length && nbytes - src <= |input|
      requires Sound(Now()) && npartial == 0 && align < 256 && (align > 0 || nbytes - src <= skip)
      requires Filtered(samp[..], p0, Now(), align, skipsize % 256, input, src, dest, nbytes)
      modifies this`npartial, this`skip, samp
      ensures total <= nbytes && Sound(Now()) && (npartial == 0 || npartial < align)
      ensures Filtered(samp[..], p0, Now(), align, skipsize % 256, input, nbytes, total, nbytes)
    {
      hide Filtered, Moved;
      var from: nat := src;
      total := dest;
      while from < nbytes
        invariant from <= nbytes && nbytes - from <= |input|
        invariant Sound(Now()) && (npartial == 0 || (from == nbytes && npartial < align))
        invariant align > 0 || nbytes - from <= skip
        invariant Filtered(samp[..], p0, Now(), align, skipsize % 256, input, from, total, nbytes)
      {
        FilteredBounds(samp[..], p0, Now(), align, skipsize % 256, input, from, total, nbytes);
        ghost var before, phase := samp[..], Now();
        var consumed, copied := Turn(samp, from, total, nbytes - from, skipsize);
        FilteredStep(before, samp[..], p0, phase, Now(), align, skipsize % 256,
                     input, from, total, nbytes, consumed, copied);
        from, total := from + consumed, total + copied;
      }
      FilteredBounds(samp[..], p0, Now(), align, skipsize % 256, input, from, total, nbytes);
    }

    /** pcm_subsample: the window becomes what the filter keeps of it. */
    method Subsample(apb: ApBuffer)
      requires Valid() && apb.Valid()
      requires subsample != AUDIO_SUBSAMPLE_NONE ==> Safe(Now(), align, |apb.Window()|)
      modifies this`npartial, this`skip, apb`nbytes, apb`curbyte, apb.samp
      ensures Valid() && apb.Valid()
      ensures subsample == AUDIO_SUBSAMPLE_NONE ==> apb.Window() == old(apb.Window()) && Now() == old(Now())
      ensures subsample != AUDIO_SUBSAMPLE_NONE ==>
                && apb.Window() == Kept(old(Now()), align, Gap(align, subsample), old(apb.Window()))
                && Now() == PhaseAfter(old(Now()), align, Gap(align, subsample), old(apb.Window()))
    {
      if subsample == AUDIO_SUBSAMPLE_NONE {
        return;
      }
      ghost var p0, input, gap := Now(), apb.Window(), Gap(align, subsample);
      var src, dest := apb.curbyte, 0;
      var skipsize := align * (subsample - 1);
      if npartial > 0 {
        if npartial + (apb.nbytes - apb.curbyte) < align {
          KeptCopies(p0, align, gap, input);
          npartial := npartial + (apb.nbytes - apb.curbyte);
          return;
        }
        src, dest := CompletePartial(apb, skipsize);
      }
      assert Filtered(apb.samp[..], p0, Now(), align, gap, input, src, dest, apb.nbytes);
      dest := FilterRest(apb.samp, src, dest, apb.nbytes, skipsize, p0, input);
      assert input[..|input|] == input;
      apb.curbyte := 0;
      apb.nbytes := dest;
    }

    /** pcm_subsample_configure. */
    method Configure(rate: nat)
      requires Valid()
      modifies this`npartial, this`skip, this`subsample
      ensures Valid() && State() == Configured(old(State()), rate)
    {
      if subsample == AUDIO_SUBSAMPLE_NONE {
        if rate != AUDIO_SUBSAMPLE_NONE {
          npartial, skip, subsample := 0, 0, rate;
        }
      } else if rate == AUDIO_SUBSAMPLE_NONE {
        npartial, skip, subsample := 0, 0, AUDIO_SUBSAMPLE_NONE;
      } else if subsample != rate {
        subsample := rate;
      }
    }

    /** pcm_parsewav. Its error returns are converted to bool, and a non-zero int is true. */
    method ParseWav(header: seq<byte>) returns (ok: bool)
      requires Valid() && |header| >= HEADER
      modifies this`samprate, this`byterate, this`align, this`bpsamp, this`nchannels
      ensures Valid() && ok == ValidWav(header)
      ensures State() == if ok then old(State()).(fmt := FormatOf(header)) else old(State())
    {
      hide U32;
      ok := ValidWav(header);
      if ok {
        samprate, byterate := U32(header, 24), U32(header, 28);
        align, bpsamp, nchannels := U16(header, 32), U16(header, 34), U16(header, 22);
        if bpsamp != 8 && bpsamp != 16 {
          return ToBool(-EINVAL);
        }
        if nchannels != 1 && nchannels != 2 {
          return ToBool(-EINVAL);
        }
      }
    }

    /** pcm_subsample, then the buffer to the lower device, whose answer is the caller's. */
    method PassDown(apb: ApBuffer)
      requires Valid() && apb.Valid() && Able(State(), align, |apb.Window()|)
      modifies this`npartial, this`skip, this`passed, apb`nbytes, apb`curbyte, apb.samp
      ensures Valid() && apb.Valid() && State() == Given(old(State()), old(apb.Window()))
      ensures apb.Window() == passed[|old(passed)|..]
    {
      hide Kept, PhaseAfter, Gap;
      Subsample(apb);
      passed := passed + apb.samp[apb.curbyte..apb.nbytes];
    }

    /** pcm_enqueuebuffer, where configured and accepted are what the lower device answers if it is called. */
    method EnqueueBuffer(apb: ApBuffer, configured: int, accepted: int) returns (ret: int)
      requires Valid() && apb.Valid()
      requires streaming ==> Able(State(), align, |apb.Window()|)
      requires !streaming && HasHeader(apb.Window()) && configured >= 0 ==>
                 Able(State(), FormatOf(apb.Window()).align, |apb.Window()| - HEADER)
      modifies this, apb`nbytes, apb`curbyte, apb.samp
      ensures Valid() && apb.Valid()
      ensures State() == Enqueued(old(State()), old(apb.Window()), apb.last, configured, accepted)
      ensures ret == Answer(old(State()), old(apb.Window()), configured, accepted)
    {
      hide ValidWav, FormatOf, Given;
      if streaming {
        if apb.last {
          streaming := false;
        }
        PassDown(apb);
        return accepted;
      }
      var bytesleft := apb.nbytes - apb.curbyte;
      if bytesleft >= HEADER {
        var ok := ParseWav(apb.samp[apb.curbyte..apb.nbytes]);
        if ok {
          if configured < 0 {
            return configured;
          }
          ghost var window := apb.Window();
          apb.curbyte := apb.curbyte + HEADER;
          assert apb.Window() == window[HEADER..];
          ghost var before := State();
          PassDown(apb);
          GivenKeepsStreaming(before, window[HEADER..], false);
          if accepted == OK {
            streaming := !apb.last;
            return OK;
          }
        }
        completed := completed + 1;
      }
      return -EINVAL;
    }
  }

  lemma NextChunk(p: Phase, align: nat, gap: nat, input: seq<byte>, at: nat, n: nat)
    requires at + n <= |input|
    ensures Kept(p, align, gap, input[..at + n]) ==
            Kept(p, align, gap, input[..at]) +
            Kept(PhaseAfter(p, align, gap, input[..at]), align, gap, input[at..at + n])
    ensures PhaseAfter(p, align, gap, input[..at + n]) ==
            PhaseAfter(PhaseAfter(p, align, gap, input[..at]), align, gap, input[at..at + n])
  {
    assert input[..at + n] == input[..at] + input[at..at + n];
    KeptConcat(p, align, gap, input[..at], input[at..at + n]);
  }
}
