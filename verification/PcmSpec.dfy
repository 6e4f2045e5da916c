/** The fast-forward filter of audio/pcm_decode.c, one byte at a time. */
module PcmSpec {
  import opened Arithmetic

  type byte = x: int | 0 <= x < 256

  /** npartial: bytes already kept of the current sample; skip: bytes still to be dropped. */
  datatype Phase = Phase(npartial: nat, skip: nat)

  /** The bytes to drop between two samples: align * (subsample - 1), truncated to the uint8_t field skip. */
  function Gap(align: nat, subsample: nat): (g: nat)
    ensures g < 256
  {
    (align * (subsample - 1)) % 256
  }

  /** What the two uint8_t fields always satisfy. */
  ghost predicate Sound(p: Phase)
  {
    p.npartial < 256 && p.skip < 256 && (p.npartial == 0 || p.skip == 0)
  }

  ghost predicate InPhase(p: Phase, align: nat)
  {
    Sound(p) && p.npartial < align
  }

  /** Whether a phase left by samples of another size can be carried on with samples of align bytes. */
  ghost predicate Fits(p: Phase, align: nat)
  {
    Sound(p) && 0 < align && p.npartial <= align
  }

  /** A sample that is already complete is followed by the gap. */
  function Settle(p: Phase, align: nat, gap: nat): Phase
  {
    if 0 < p.npartial == align then Phase(0, gap) else p
  }

  function Advance(p: Phase, align: nat, gap: nat): Phase
  {
    if p.skip > 0 then p.(skip := p.skip - 1)
    else if p.npartial + 1 == align then Phase(0, gap)
    else p.(npartial := p.npartial + 1)
  }

  /** The bytes the filter keeps, and the phase it is left in. */
  function Kept(p: Phase, align: nat, gap: nat, data: seq<byte>): seq<byte>
    decreases |data|
  {
    if data == [] then []
    else
      var p := Settle(p, align, gap);
      (if p.skip > 0 then [] else [data[0]]) + Kept(Advance(p, align, gap), align, gap, data[1..])
  }

  function PhaseAfter(p: Phase, align: nat, gap: nat, data: seq<byte>): Phase
    decreases |data|
  {
    var p := Settle(p, align, gap);
    if data == [] then p else PhaseAfter(Advance(p, align, gap), align, gap, data[1..])
  }

  // -------------------------------------------------------------------------
  // The same filter however the stream is cut

  lemma {:induction false} KeptConcat(p: Phase, align: nat, gap: nat, x: seq<byte>, y: seq<byte>)
    ensures Kept(p, align, gap, x + y) == Kept(p, align, gap, x) + Kept(PhaseAfter(p, align, gap, x), align, gap, y)
    ensures PhaseAfter(p, align, gap, x + y) == PhaseAfter(PhaseAfter(p, align, gap, x), align, gap, y)
    decreases |x|
  {
    if x == [] {
      assert x + y == y;
    } else {
      assert (x + y)[0] == x[0] && (x + y)[1..] == x[1..] + y;
      KeptConcat(Advance(Settle(p, align, gap), align, gap), align, gap, x[1..], y);
    }
  }

  function Flatten(buffers: seq<seq<byte>>): seq<byte>
  {
    if buffers == [] then [] else buffers[0] + Flatten(buffers[1..])
  }

  /** Filtering buffer after buffer, carrying the phase. */
  function KeptFrom(p: Phase, align: nat, gap: nat, buffers: seq<seq<byte>>): seq<byte>
    decreases |buffers|
  {
    if buffers == [] then []
    else Kept(p, align, gap, buffers[0]) + KeptFrom(PhaseAfter(p, align, gap, buffers[0]), align, gap, buffers[1..])
  }

  lemma {:induction false} CutsDoNotMatter(p: Phase, align: nat, gap: nat, buffers: seq<seq<byte>>)
    ensures KeptFrom(p, align, gap, buffers) == Kept(p, align, gap, Flatten(buffers))
    decreases |buffers|
  {
    if buffers != [] {
      CutsDoNotMatter(PhaseAfter(p, align, gap, buffers[0]), align, gap, buffers[1..]);
      KeptConcat(p, align, gap, buffers[0], Flatten(buffers[1..]));
    }
  }

  // -------------------------------------------------------------------------
  // Which bytes are kept

  /** The bytes of data, the first of which is byte k of the stream, whose position in the stream is
      among the first align of their period. */
  function Select(data: seq<byte>, k: nat, align: nat, period: nat): seq<byte>
    requires period > 0
  {
    if data == [] then []
    else (if k % period < align then [data[0]] else []) + Select(data[1..], k + 1, align, period)
  }

  /** The phase of the filter at position k of the stream. */
  function PhaseAt(k: nat, align: nat, gap: nat): Phase
    requires align > 0
  {
    var r := k % (align + gap);
    if r < align then Phase(r, 0) else Phase(0, align + gap - r)
  }

  lemma AdvanceAt(k: nat, align: nat, gap: nat)
    requires align > 0
    ensures Advance(PhaseAt(k, align, gap), align, gap) == PhaseAt(k + 1, align, gap)
  {
    NextRemainder(k, align + gap);
  }

  lemma {:induction false} KeptIsSelect(k: nat, align: nat, gap: nat, data: seq<byte>)
    requires align > 0
    ensures Kept(PhaseAt(k, align, gap), align, gap, data) == Select(data, k, align, align + gap)
    decreases |data|
  {
    if data != [] {
      AdvanceAt(k, align, gap);
      KeptIsSelect(k + 1, align, gap, data[1..]);
    }
  }

  /** Every way of cutting a stream gives exactly the bytes whose offset modulo align * subsample is below
      align, as long as the gap fits the field. */
  lemma SubsampledStream(align: nat, subsample: nat, buffers: seq<seq<byte>>)
    requires align > 0 && subsample > 0 && align * (subsample - 1) < 256
    ensures align * subsample > 0
    ensures KeptFrom(Phase(0, 0), align, Gap(align, subsample), buffers)
            == Select(Flatten(buffers), 0, align, align * subsample)
  {
    var gap := Gap(align, subsample);
    GapFits(align, subsample);
    CutsDoNotMatter(Phase(0, 0), align, gap, buffers);
    Remainder(0, align + gap, 0, 0);
    KeptIsSelect(0, align, gap, Flatten(buffers));
  }

  lemma GapFits(align: nat, subsample: nat)
    requires subsample > 0
    ensures Gap(align, subsample) == align * (subsample - 1) <==> align * (subsample - 1) < 256
    ensures align * subsample == align + align * (subsample - 1)
  {
    var n := align * (subsample - 1);
    assert n >= 0;
    if n < 256 {
      assert n % 256 == n;
    }
  }

  /** When the gap does not fit, the stream of one kept sample, the truncated gap and one more byte is
      already filtered wrongly. */
  lemma WideGapIsTruncated(align: nat, subsample: nat, data: seq<byte>)
    requires align > 0 && subsample > 0 && align * (subsample - 1) >= 256
    requires |data| == align + Gap(align, subsample) + 1
    ensures align * subsample > 0
    ensures Kept(Phase(0, 0), align, Gap(align, subsample), data) != Select(data, 0, align, align * subsample)
  {
    var gap := Gap(align, subsample);
    var period := align + gap;
    GapFits(align, subsample);
    Remainder(0, period, 0, 0);
    KeptIsSelect(0, align, gap, data);
    var init := data[..period];
    assert data == init + [data[period]];
    SelectConcat(init, [data[period]], 0, align, period);
    SelectConcat(init, [data[period]], 0, align, align * subsample);
    assert period % period == 0 by { Remainder(period, period, 1, 0); }
    assert period % (align * subsample) == period by { Remainder(period, align * subsample, 0, period); }
    SelectSame(init, 0, align, period, align * subsample);
  }

  /** So the code is the intended filter on every stream exactly when the gap fits the field. */
  lemma IntendedExactlyWhenGapFits(align: nat, subsample: nat)
    requires align > 0 && subsample > 0
    ensures align * subsample > 0
    ensures (forall data ::
               Kept(Phase(0, 0), align, Gap(align, subsample), data) == Select(data, 0, align, align * subsample))
            <==> align * (subsample - 1) < 256
  {
    var gap := Gap(align, subsample);
    GapFits(align, subsample);
    Remainder(0, align + gap, 0, 0);
    if align * (subsample - 1) < 256 {
      forall data ensures Kept(Phase(0, 0), align, gap, data) == Select(data, 0, align, align * subsample) {
        KeptIsSelect(0, align, gap, data);
      }
    } else {
      WideGapIsTruncated(align, subsample, seq(align + gap + 1, _ => 0));
    }
  }

  lemma {:induction false} SelectConcat(x: seq<byte>, y: seq<byte>, k: nat, align: nat, period: nat)
    requires period > 0
    ensures Select(x + y, k, align, period) == Select(x, k, align, period) + Select(y, k + |x|, align, period)
    decreases |x|
  {
    if x == [] {
      assert x + y == y;
    } else {
      assert (x + y)[0] == x[0] && (x + y)[1..] == x[1..] + y;
      SelectConcat(x[1..], y, k + 1, align, period);
    }
  }

  /** Within the shorter of two periods the selections agree. */
  lemma {:induction false} SelectSame(x: seq<byte>, k: nat, align: nat, period: nat, period': nat)
    requires 0 < period <= period' && k + |x| <= period
    ensures Select(x, k, align, period) == Select(x, k, align, period')
    decreases |x|
  {
    if x != [] {
      Remainder(k, period, 0, k);
      Remainder(k, period', 0, k);
      SelectSame(x[1..], k + 1, align, period, period');
    }
  }

  /** The rates and formats the driver announces all fit. */
  lemma AnnouncedRatesFit(align: nat, subsample: nat)
    requires align in {1, 2, 4} && subsample in {2, 4, 8, 16}
    ensures align * (subsample - 1) < 256
  {
    assert align * (subsample - 1) <= 4 * 15;
  }

  // -------------------------------------------------------------------------
  // Whole chunks

  /** Dropping at most what is owed. */
  lemma {:induction false} KeptSkips(p: Phase, align: nat, gap: nat, x: seq<byte>)
    requires |x| <= p.skip && p.npartial == 0
    ensures Kept(p, align, gap, x) == []
    ensures PhaseAfter(p, align, gap, x) == p.(skip := p.skip - |x|)
    decreases |x|
  {
    if x != [] {
      KeptSkips(Advance(p, align, gap), align, gap, x[1..]);
    }
  }

  /** Keeping at most the rest of a sample. */
  lemma {:induction false} KeptCopies(p: Phase, align: nat, gap: nat, x: seq<byte>)
    requires p.skip == 0 && p.npartial + |x| <= align && 0 < align
    ensures Kept(p, align, gap, x) == x
    ensures PhaseAfter(p, align, gap, x) ==
            if p.npartial + |x| == align then Phase(0, gap) else Phase(p.npartial + |x|, 0)
    decreases |x|
  {
    if x == [] {
    } else if |x| == 1 {
      assert x[1..] == [] && x == [x[0]];
    } else {
      KeptCopies(Advance(p, align, gap), align, gap, x[1..]);
      assert x == [x[0]] + x[1..];
    }
  }

  /** The bytes still owed to the sample or the gap that the filter is in. */
  function Owed(p: Phase, align: nat): nat
    requires p.npartial <= align
  {
    if p.npartial > 0 then align - p.npartial else p.skip
  }

  /** First what is owed, then a new period: after the rest of a sample comes its gap, after the rest of a gap
      the next sample. */
  function AfterOwed(p: Phase, align: nat, gap: nat, data: seq<byte>): seq<byte>
    requires p.npartial <= align && 0 < align
  {
    var m := if Owed(p, align) < |data| then Owed(p, align) else |data|;
    if p.npartial > 0 then data[..m] + Select(data[m..], align, align, align + gap)
    else Select(data[m..], 0, align, align + gap)
  }

  /** A change of rate or of sample size takes effect after the bytes already owed. */
  lemma RateChange(p: Phase, align: nat, gap: nat, data: seq<byte>)
    requires Fits(p, align)
    ensures Kept(p, align, gap, data) == AfterOwed(p, align, gap, data)
  {
    var m := if Owed(p, align) < |data| then Owed(p, align) else |data|;
    var owed, rest := data[..m], data[m..];
    assert data == owed + rest;
    KeptConcat(p, align, gap, owed, rest);
    if p.npartial > 0 {
      KeptCopies(p, align, gap, owed);
      if m == Owed(p, align) {
        PhaseAtSample(align, gap);
        KeptIsSelect(align, align, gap, rest);
      }
    } else {
      KeptSkips(p, align, gap, owed);
      if m == Owed(p, align) {
        Remainder(0, align + gap, 0, 0);
        KeptIsSelect(0, align, gap, rest);
      }
    }
  }

  /** The phase n bytes after p. */
  function PhaseFrom(p: Phase, align: nat, gap: nat, n: nat): Phase
    requires p.npartial <= align && 0 < align
  {
    var m := Owed(p, align);
    if p.npartial > 0 then (if n < m then Phase(p.npartial + n, 0) else PhaseAt(align + n - m, align, gap))
    else (if n < m then Phase(0, p.skip - n) else PhaseAt(n - m, align, gap))
  }

  lemma {:induction false} PhaseAfterAt(k: nat, align: nat, gap: nat, data: seq<byte>)
    requires align > 0
    ensures PhaseAfter(PhaseAt(k, align, gap), align, gap, data) == PhaseAt(k + |data|, align, gap)
    decreases |data|
  {
    if data != [] {
      AdvanceAt(k, align, gap);
      PhaseAfterAt(k + 1, align, gap, data[1..]);
    }
  }

  lemma PhaseAfterFrom(p: Phase, align: nat, gap: nat, data: seq<byte>)
    requires Fits(p, align)
    ensures PhaseAfter(p, align, gap, data) == PhaseFrom(p, align, gap, |data|)
  {
    hide PhaseAt;
    var m := if Owed(p, align) < |data| then Owed(p, align) else |data|;
    var owed, rest := data[..m], data[m..];
    assert data == owed + rest;
    KeptConcat(p, align, gap, owed, rest);
    if p.npartial > 0 {
      KeptCopies(p, align, gap, owed);
      PhaseAtSample(align, gap);
      PhaseAfterAt(align, align, gap, rest);
    } else {
      KeptSkips(p, align, gap, owed);
      PhaseAtStart(align, gap);
      PhaseAfterAt(0, align, gap, rest);
    }
  }

  lemma PhaseAtStart(align: nat, gap: nat)
    requires 0 < align
    ensures PhaseAt(0, align, gap) == Phase(0, 0)
  {
    Remainder(0, align + gap, 0, 0);
  }

  lemma PhaseAtSample(align: nat, gap: nat)
    requires 0 < align
    ensures PhaseAt(align, align, gap) == Phase(0, gap)
  {
    if gap == 0 {
      Remainder(align, align, 1, 0);
    } else {
      Remainder(align, align + gap, 0, align);
    }
  }

  // -------------------------------------------------------------------------
  // When the code can carry on

  /** copysize where a partial sample is completed: an unsigned int. */
  function CopySize(align: nat, npartial: nat): nat
  {
    (align - npartial) % 0x1_0000_0000
  }

  /** The copy stays inside a window of n bytes exactly when the partial sample is not already too long, or
      the window has close to 2^32 bytes. */
  lemma CopyInsideExactlyWhen(align: nat, npartial: nat, n: nat)
    requires align < 256 && npartial < 256 && npartial + n >= align
    ensures CopySize(align, npartial) <= n <==> npartial <= align || n + npartial >= 0x1_0000_0000 + align
  {
  }

  /** The loop: the phase, and the bytes left. */
  datatype Loop = Loop(phase: Phase, left: nat)

  function LoopTurn(l: Loop, align: nat, gap: nat): Loop
  {
    if l.left == 0 then l
    else if l.phase.skip > 0 then
      var n := if l.phase.skip < l.left then l.phase.skip else l.left;
      Loop(l.phase.(skip := l.phase.skip - n), l.left - n)
    else if l.left < align then Loop(l.phase.(npartial := l.left), 0)
    else Loop(l.phase.(skip := gap), l.left - align)
  }

  lemma ProgressExactlyWhen(l: Loop, align: nat, gap: nat)
    requires l.left > 0
    ensures LoopTurn(l, align, gap).left < l.left <==> align > 0 || l.phase.skip > 0
  {
  }

  function Turns(l: Loop, align: nat, gap: nat, k: nat): Loop
    decreases k
  {
    if k == 0 then l else Turns(LoopTurn(l, align, gap), align, gap, k - 1)
  }

  ghost predicate Ends(l: Loop, align: nat, gap: nat)
  {
    exists k: nat :: Turns(l, align, gap, k).left == 0
  }

  lemma {:induction false} EndsEventually(l: Loop, align: nat, gap: nat) returns (k: nat)
    requires align > 0
    ensures Turns(l, align, gap, k).left == 0
    decreases l.left
  {
    if l.left == 0 {
      k := 0;
    } else {
      k := EndsEventually(LoopTurn(l, align, gap), align, gap);
      k := k + 1;
    }
  }

  /** Samples of no bytes: once the gap is used up the loop goes round without moving. */
  lemma {:induction false} Stuck(l: Loop, k: nat)
    requires l.left > l.phase.skip
    ensures Turns(l, 0, 0, k).left > Turns(l, 0, 0, k).phase.skip
    decreases k
  {
    if k > 0 {
      Stuck(LoopTurn(l, 0, 0), k - 1);
    }
  }

  lemma EndsExactlyWhen(l: Loop, align: nat, subsample: nat)
    ensures Ends(l, align, Gap(align, subsample)) <==> align > 0 || l.left <= l.phase.skip
  {
    var gap := Gap(align, subsample);
    if align > 0 {
      var k := EndsEventually(l, align, gap);
    } else if l.left <= l.phase.skip {
      assert Turns(l, align, gap, 1) == Turns(LoopTurn(l, align, gap), align, gap, 0);
    } else {
      assert gap == 0;
      forall k: nat ensures Turns(l, align, gap, k).left != 0 {
        Stuck(l, k);
      }
    }
  }

  /** Filtering a window of n bytes copies inside the window and comes to an end. */
  ghost predicate RunsToEnd(p: Phase, align: nat, subsample: nat, n: nat)
  {
    var gap := Gap(align, subsample);
    if p.npartial == 0 then Ends(Loop(p, n), align, gap)
    else
      p.npartial + n >= align ==>
        CopySize(align, p.npartial) <= n && Ends(Loop(Phase(0, gap), n - CopySize(align, p.npartial)), align, gap)
  }

  predicate Safe(p: Phase, align: nat, n: nat)
  {
    p.npartial <= align && (align > 0 || n <= p.skip)
  }

  /** It does so exactly when the partial sample is not longer than a sample, and samples have bytes or the
      whole window lies in a gap. */
  lemma RunsToEndExactlyWhen(p: Phase, align: nat, subsample: nat, n: nat)
    requires Sound(p) && align < 256 && n < 0x1_0000_0000 - 255
    ensures RunsToEnd(p, align, subsample, n) <==> Safe(p, align, n)
  {
    var gap := Gap(align, subsample);
    if p.npartial == 0 {
      EndsExactlyWhen(Loop(p, n), align, subsample);
    } else if p.npartial + n >= align {
      CopyInsideExactlyWhen(align, p.npartial, n);
      if p.npartial <= align {
        EndsExactlyWhen(Loop(Phase(0, gap), n - CopySize(align, p.npartial)), align, subsample);
      }
    }
  }

  /** Over windows of any length, that is the phase fitting the sample size. */
  lemma AlwaysSafeExactlyWhen(p: Phase, align: nat)
    requires Sound(p)
    ensures (forall n: nat :: Safe(p, align, n)) <==> Fits(p, align)
  {
    if align == 0 {
      assert !Safe(p, align, p.skip + 1);
    } else {
      assert p.npartial > align ==> !Safe(p, align, 0);
    }
  }
}
