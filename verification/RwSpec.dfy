/** The read-ahead / write buffer of drivers/rwbuffer.c as a value, and what its atomic
    sections keep.  B is the contents of one block. */
module RwSpec {

  /** dev: the media; wr: the dirty run, from block wrstart on; rh: the read-ahead window,
      from block rhstart on. */
  datatype State<B> = State(dev: seq<B>, wrstart: int, wr: seq<B>, wrexpected: int, rhstart: int, rh: seq<B>)

  predicate Within(b: int, start: int, n: nat) { start <= b < start + n }

  predicate InRun<B>(b: int, start: int, x: seq<B>) { Within(b, start, |x|) }

  /** Blocks start, start + 1, ... with the contents x. */
  function RunMap<B>(start: int, x: seq<B>): map<int, B>
  {
    map b | start <= b < start + |x| && InRun(b, start, x) :: x[b - start]
  }

  /** The array of blocks that a client sees: the media overlaid with the dirty run. */
  function Image<B>(s: State<B>): map<int, B> { RunMap(0, s.dev) + RunMap(s.wrstart, s.wr) }

  predicate OnMedia<B>(dev: seq<B>, start: int, x: seq<B>) { 0 <= start && start + |x| <= |dev| }

  function Overlay<B>(dev: seq<B>, start: int, x: seq<B>): seq<B>
    requires OnMedia(dev, start, x)
  {
    dev[..start] + x + dev[start + |x|..]
  }

  /** What the fields promise at every lock boundary. */
  predicate WellFormed<B>(s: State<B>, wrmax: nat, rhmax: nat)
  {
    && |s.wr| <= wrmax
    && |s.rh| <= rhmax
    && (|s.wr| > 0 ==> 0 <= s.wrstart && s.wrexpected == s.wrstart + |s.wr|)
    && (|s.rh| > 0 ==> OnMedia(s.dev, s.rhstart, s.rh))
  }

  /** The window agrees with the media wherever the dirty run does not hide it. */
  ghost predicate WindowOk<B>(s: State<B>)
    requires |s.rh| > 0 ==> OnMedia(s.dev, s.rhstart, s.rh)
  {
    forall b | InRun(b, s.rhstart, s.rh) && !InRun(b, s.wrstart, s.wr) :: s.rh[b - s.rhstart] == s.dev[b]
  }

  /** No block is both dirty and in the window. */
  ghost predicate Disjoint<B>(s: State<B>)
  {
    forall b :: !(InRun(b, s.rhstart, s.rh) && InRun(b, s.wrstart, s.wr))
  }

  /** No block of the run x from start on is in the window. */
  ghost predicate ClearOf<B>(s: State<B>, start: int, x: seq<B>)
  {
    forall b :: !(InRun(b, s.rhstart, s.rh) && InRun(b, start, x))
  }

  // -------------------------------------------------------------------------
  // The atomic sections

  /** rwb_overlap */
  predicate Overlap(start1: int, n1: nat, start2: int, n2: nat)
  {
    !(start1 + n1 - 1 < start2 || start1 > start2 + n2 - 1)
  }

  /** rwb_resetwrbuffer */
  function ResetRun<B>(s: State<B>): State<B> { s.(wr := [], wrstart := -1, wrexpected := -1) }

  /** A successful wrflush of the dirty run, then the reset. */
  function Flushed<B>(s: State<B>): State<B>
    requires OnMedia(s.dev, s.wrstart, s.wr)
  {
    ResetRun(s.(dev := Overlay(s.dev, s.wrstart, s.wr)))
  }

  /** Lines 288-303 of rwb_writebuffer. */
  function Appended<B>(s: State<B>, start: int, x: seq<B>): State<B>
  {
    var wrstart := if |s.wr| == 0 then start else s.wrstart;
    s.(wrstart := wrstart, wr := s.wr + x, wrexpected := wrstart + |s.wr| + |x|)
  }

  /** The test of rwb_writebuffer for flushing first. */
  predicate MustFlush<B>(s: State<B>, start: int, n: nat, wrmax: nat)
  {
    (start != s.wrexpected && |s.wr| > 0) || |s.wr| + n > wrmax
  }

  /** rwb_writebuffer when no callback fails. */
  function Buffered<B>(s: State<B>, start: int, x: seq<B>, wrmax: nat): State<B>
    requires MustFlush(s, start, |x|, wrmax) ==> OnMedia(s.dev, s.wrstart, s.wr)
  {
    Appended(if MustFlush(s, start, |x|, wrmax) then Flushed(s) else s, start, x)
  }

  /** rwb_resetrhbuffer */
  function ResetWindow<B>(s: State<B>): State<B> { s.(rh := [], rhstart := -1) }

  /** The first section of rwb_write. */
  function WindowClearOf<B>(s: State<B>, start: int, n: nat): State<B>
  {
    if Overlap(s.rhstart, |s.rh|, start, n) then ResetWindow(s) else s
  }

  function ReloadEnd(start: nat, rhmax: nat, nblocks: nat): nat
  {
    if start + rhmax > nblocks then nblocks else start + rhmax
  }

  /** rwb_rhreload when the callback does not fail. */
  function Reloaded<B>(s: State<B>, start: nat, rhmax: nat): State<B>
    requires start < |s.dev|
  {
    s.(rhstart := start, rh := s.dev[start..ReloadEnd(start, rhmax, |s.dev|)])
  }

  /** A write straight to the media. */
  function Direct<B>(s: State<B>, start: int, x: seq<B>): State<B>
    requires OnMedia(s.dev, start, x)
  {
    s.(dev := Overlay(s.dev, start, x))
  }

  // -------------------------------------------------------------------------
  // What a client sees

  /** For non-empty runs, rwb_overlap says whether they share a block; an empty first run
      overlaps exactly the runs that reach strictly around it. */
  lemma OverlapMeansSharing(start1: int, n1: nat, start2: int, n2: nat)
    ensures n1 > 0 && n2 > 0 ==>
              (Overlap(start1, n1, start2, n2) <==> exists b :: Within(b, start1, n1) && Within(b, start2, n2))
    ensures n1 == 0 ==> (Overlap(start1, n1, start2, n2) <==> start2 < start1 < start2 + n2)
  {
    if n1 > 0 && n2 > 0 && Overlap(start1, n1, start2, n2) {
      var b := if start1 < start2 then start2 else start1;
      assert Within(b, start1, n1) && Within(b, start2, n2);
    }
  }

  /** Flushing the dirty run does not change the image. */
  lemma FlushKeepsImage<B>(s: State<B>)
    requires OnMedia(s.dev, s.wrstart, s.wr)
    ensures Image(Flushed(s)) == Image(s)
  {
    OverlayImage(s.dev, s.wrstart, s.wr);
  }

  lemma OverlayImage<B>(dev: seq<B>, start: int, x: seq<B>)
    requires OnMedia(dev, start, x)
    ensures RunMap(0, Overlay(dev, start, x)) == RunMap(0, dev) + RunMap(start, x)
  {
  }

  lemma RunMapConcat<B>(start: int, x: seq<B>, y: seq<B>)
    ensures RunMap(start, x + y) == RunMap(start, x) + RunMap(start + |x|, y)
  {
  }

  /** Appending to the run, where it expects the next block, writes the blocks. */
  lemma AppendWrites<B>(s: State<B>, start: int, x: seq<B>)
    requires |s.wr| > 0 ==> start == s.wrstart + |s.wr|
    ensures Image(Appended(s, start, x)) == Image(s) + RunMap(start, x)
  {
    hide RunMap;
    var dev, wr, added := RunMap(0, s.dev), RunMap(s.wrstart, s.wr), RunMap(start, x);
    if |s.wr| == 0 {
      RunMapEmpty<B>(s.wrstart);
      assert s.wr == [] && s.wr + x == x;
      assert dev + map[] == dev;
    } else {
      RunMapConcat(s.wrstart, s.wr, x);
      MergeAssociative(dev, wr, added);
    }
  }

  lemma RunMapEmpty<B>(start: int)
    ensures RunMap<B>(start, []) == map[]
  {
  }

  lemma MergeAssociative<B>(a: map<int, B>, b: map<int, B>, c: map<int, B>)
    ensures a + b + c == a + (b + c)
  {
  }

  /** A buffered write updates exactly the blocks it names, whether or not it flushes first. */
  lemma BufferedWrites<B>(s: State<B>, start: int, x: seq<B>, wrmax: nat)
    requires |s.wr| > 0 ==> s.wrexpected == s.wrstart + |s.wr|
    requires |x| <= wrmax
    requires MustFlush(s, start, |x|, wrmax) ==> OnMedia(s.dev, s.wrstart, s.wr)
    ensures Image(Buffered(s, start, x, wrmax)) == Image(s) + RunMap(start, x)
    ensures |Buffered(s, start, x, wrmax).wr| <= wrmax
  {
    if MustFlush(s, start, |x|, wrmax) {
      FlushKeepsImage(s);
      AppendWrites(Flushed(s), start, x);
    } else {
      AppendWrites(s, start, x);
    }
  }

  /** Dirty blocks that a direct write names already hold what it writes. */
  ghost predicate DirtyAgrees<B>(s: State<B>, start: int, x: seq<B>)
  {
    forall b | InRun(b, s.wrstart, s.wr) && InRun(b, start, x) :: s.wr[b - s.wrstart] == x[b - start]
  }

  /** A direct write updates exactly the blocks it names, unless a dirty block with other contents hides it. */
  lemma DirectWritesExactlyWhen<B>(s: State<B>, start: int, x: seq<B>)
    requires OnMedia(s.dev, start, x)
    ensures Image(Direct(s, start, x)) == Image(s) + RunMap(start, x) <==> DirtyAgrees(s, start, x)
  {
    hide RunMap, Overlay, DirtyAgrees, MapsAgree;
    DirtyAgreesAsMaps(s, start, x);
    OverlayImage(s.dev, start, x);
    MergeOrder(RunMap(0, s.dev), RunMap(s.wrstart, s.wr), RunMap(start, x));
  }

  lemma DirtyAgreesAsMaps<B>(s: State<B>, start: int, x: seq<B>)
    ensures DirtyAgrees(s, start, x) <==> MapsAgree(RunMap(s.wrstart, s.wr), RunMap(start, x))
  {
    if MapsAgree(RunMap(s.wrstart, s.wr), RunMap(start, x)) {
      forall b | InRun(b, s.wrstart, s.wr) && InRun(b, start, x) ensures s.wr[b - s.wrstart] == x[b - start] {
        assert b in RunMap(s.wrstart, s.wr) && b in RunMap(start, x);
      }
    }
  }

  ghost predicate MapsAgree<B>(m1: map<int, B>, m2: map<int, B>)
  {
    forall b | b in m1 && b in m2 :: m1[b] == m2[b]
  }

  /** Two updates can be swapped exactly when they agree. */
  lemma MergeOrder<B>(m: map<int, B>, m1: map<int, B>, m2: map<int, B>)
    ensures m + m2 + m1 == m + m1 + m2 <==> MapsAgree(m1, m2)
  {
    var x, y := m + m2 + m1, m + m1 + m2;
    if MapsAgree(m1, m2) {
      assert forall b | b in x :: x[b] == y[b];
    } else {
      var b :| b in m1 && b in m2 && m1[b] != m2[b];
      assert x[b] == m1[b] && y[b] == m2[b];
    }
  }

  /** A dropped run leaves the image alone exactly when the media already holds it. */
  ghost predicate RunOnMedia<B>(s: State<B>)
  {
    forall b | InRun(b, s.wrstart, s.wr) :: InRun(b, 0, s.dev) && s.dev[b] == s.wr[b - s.wrstart]
  }

  lemma LossShowsExactlyWhen<B>(s: State<B>)
    ensures Image(ResetRun(s)) == Image(s) <==> RunOnMedia(s)
  {
    var before, after := Image(s), Image(ResetRun(s));
    assert after == RunMap(0, s.dev);
    if RunOnMedia(s) {
      assert forall b :: b in before <==> b in after;
      assert forall b | b in before :: before[b] == after[b];
    } else {
      var b :| InRun(b, s.wrstart, s.wr) && !(InRun(b, 0, s.dev) && s.dev[b] == s.wr[b - s.wrstart]);
      assert b in before && before[b] == s.wr[b - s.wrstart];
    }
  }

  // -------------------------------------------------------------------------
  // Coherence of the two buffers

  /** What rwb_read delivers for block b: the dirty run first, then the window, then the media. */
  function Seen<B>(s: State<B>, b: int): B
    requires |s.rh| > 0 ==> OnMedia(s.dev, s.rhstart, s.rh)
    requires InRun(b, 0, s.dev) || InRun(b, s.wrstart, s.wr)
  {
    if InRun(b, s.wrstart, s.wr) then s.wr[b - s.wrstart]
    else if InRun(b, s.rhstart, s.rh) then s.rh[b - s.rhstart]
    else s.dev[b]
  }

  /** Every read is the image, exactly when the window invariant holds. */
  lemma CoherentExactlyWhenWindowOk<B>(s: State<B>)
    requires |s.rh| > 0 ==> OnMedia(s.dev, s.rhstart, s.rh)
    ensures WindowOk(s) <==> forall b | b in Image(s) :: Seen(s, b) == Image(s)[b]
  {
    if forall b | b in Image(s) :: Seen(s, b) == Image(s)[b] {
      forall b | InRun(b, s.rhstart, s.rh) && !InRun(b, s.wrstart, s.wr)
        ensures s.rh[b - s.rhstart] == s.dev[b]
      {
        assert InRun(b, 0, s.dev);
        assert b in Image(s);
      }
    }
  }

  /** The window already holds the dirty contents of every dirty block in it. */
  ghost predicate OverlapAgrees<B>(s: State<B>)
  {
    forall b | InRun(b, s.rhstart, s.rh) && InRun(b, s.wrstart, s.wr) :: s.rh[b - s.rhstart] == s.wr[b - s.wrstart]
  }

  /** A flush keeps the window coherent exactly when the two buffers agree where they overlap. */
  lemma FlushKeepsWindowExactlyWhen<B>(s: State<B>)
    requires OnMedia(s.dev, s.wrstart, s.wr)
    requires |s.rh| > 0 ==> OnMedia(s.dev, s.rhstart, s.rh)
    requires WindowOk(s)
    ensures WindowOk(Flushed(s)) <==> OverlapAgrees(s)
    ensures Disjoint(s) ==> OverlapAgrees(s)
  {
    FlushedMedia(s);
    assert forall b | InRun(b, s.rhstart, s.rh) :: InRun(b, 0, s.dev);
    if WindowOk(Flushed(s)) {
      forall b | InRun(b, s.rhstart, s.rh) && InRun(b, s.wrstart, s.wr)
        ensures s.rh[b - s.rhstart] == s.wr[b - s.wrstart]
      {
        assert !InRun(b, Flushed(s).wrstart, Flushed(s).wr);
        assert Flushed(s).rh[b - s.rhstart] == Flushed(s).dev[b];
      }
    }
  }

  ghost predicate SameShape<B>(s: State<B>, s': State<B>)
  {
    |s.dev| == |s'.dev| && s.wrstart == s'.wrstart && |s.wr| == |s'.wr| && s.rhstart == s'.rhstart && |s.rh| == |s'.rh|
  }

  /** Position alone: if a dirty block is in the window, some contents of the same shape are
      coherent before the flush and stale after it. */
  lemma OverlapCanGoStale<B>(s: State<B>, stale: B, recent: B) returns (s': State<B>)
    requires OnMedia(s.dev, s.wrstart, s.wr)
    requires |s.rh| > 0 ==> OnMedia(s.dev, s.rhstart, s.rh)
    requires !Disjoint(s) && stale != recent
    ensures SameShape(s, s') && WindowOk(s') && OnMedia(s'.dev, s'.wrstart, s'.wr)
    ensures !WindowOk(Flushed(s'))
  {
    s' := s.(dev := seq(|s.dev|, _ => stale), wr := seq(|s.wr|, _ => recent), rh := seq(|s.rh|, _ => stale));
    FlushKeepsWindowExactlyWhen(s');
    var b :| InRun(b, s.rhstart, s.rh) && InRun(b, s.wrstart, s.wr);
    assert InRun(b, s'.rhstart, s'.rh) && InRun(b, s'.wrstart, s'.wr);
    assert s'.rh[b - s'.rhstart] == stale && s'.wr[b - s'.wrstart] == recent;
  }

  /** The same outside the blocks x from start on. */
  ghost predicate OverlapAgreesOutside<B>(s: State<B>, start: int, x: seq<B>)
  {
    forall b | InRun(b, s.rhstart, s.rh) && InRun(b, s.wrstart, s.wr) && !InRun(b, start, x) ::
      s.rh[b - s.rhstart] == s.wr[b - s.wrstart]
  }

  lemma OutsideWhenClear<B>(s: State<B>, start: int, x: seq<B>)
    requires ClearOf(s, start, x)
    ensures OverlapAgreesOutside(s, start, x) <==> OverlapAgrees(s)
  {
  }

  /** A buffered write keeps the window coherent exactly when, if it flushes, the two buffers agree where they
      overlap outside the blocks written. */
  lemma BufferedKeepsWindowExactlyWhen<B>(s: State<B>, start: int, x: seq<B>, wrmax: nat)
    requires |s.rh| > 0 ==> OnMedia(s.dev, s.rhstart, s.rh)
    requires |s.wr| > 0 ==> s.wrexpected == s.wrstart + |s.wr|
    requires WindowOk(s)
    requires MustFlush(s, start, |x|, wrmax) ==> OnMedia(s.dev, s.wrstart, s.wr)
    ensures WindowOk(Buffered(s, start, x, wrmax))
            <==> (MustFlush(s, start, |x|, wrmax) ==> OverlapAgreesOutside(s, start, x))
  {
    var t := Buffered(s, start, x, wrmax);
    if MustFlush(s, start, |x|, wrmax) {
      assert t.wr == x && t.wrstart == start;
      FlushedMedia(s);
      if WindowOk(t) {
        forall b | InRun(b, s.rhstart, s.rh) && InRun(b, s.wrstart, s.wr) && !InRun(b, start, x)
          ensures s.rh[b - s.rhstart] == s.wr[b - s.wrstart]
        {
          assert !InRun(b, t.wrstart, t.wr) && t.rh[b - t.rhstart] == t.dev[b];
        }
      }
    } else {
      assert forall b :: InRun(b, s.wrstart, s.wr) ==> InRun(b, t.wrstart, t.wr);
    }
  }

  /** The media after a flush, block by block. */
  lemma FlushedMedia<B>(s: State<B>)
    requires OnMedia(s.dev, s.wrstart, s.wr)
    ensures var dev := Overlay(s.dev, s.wrstart, s.wr);
            && |dev| == |s.dev|
            && (forall b | InRun(b, s.wrstart, s.wr) :: dev[b] == s.wr[b - s.wrstart])
            && (forall b | InRun(b, 0, s.dev) && !InRun(b, s.wrstart, s.wr) :: dev[b] == s.dev[b])
  {
  }

  /** Blocks of the window that are written straight to the media and are not dirty already hold x. */
  ghost predicate WindowAgrees<B>(s: State<B>, start: int, x: seq<B>)
  {
    forall b | InRun(b, s.rhstart, s.rh) && InRun(b, start, x) && !InRun(b, s.wrstart, s.wr) ::
      s.rh[b - s.rhstart] == x[b - start]
  }

  /** A direct write keeps the window coherent exactly when the window already holds it. */
  lemma DirectKeepsWindowExactlyWhen<B>(s: State<B>, start: int, x: seq<B>)
    requires |s.rh| > 0 ==> OnMedia(s.dev, s.rhstart, s.rh)
    requires WindowOk(s) && OnMedia(s.dev, start, x)
    ensures WindowOk(Direct(s, start, x)) <==> WindowAgrees(s, start, x)
    ensures ClearOf(s, start, x) ==> WindowAgrees(s, start, x)
  {
    var t := Direct(s, start, x);
    FlushedMedia(s.(wrstart := start, wr := x));
    assert forall b | InRun(b, s.rhstart, s.rh) :: InRun(b, 0, s.dev);
    if WindowOk(t) {
      forall b | InRun(b, s.rhstart, s.rh) && InRun(b, start, x) && !InRun(b, s.wrstart, s.wr)
        ensures s.rh[b - s.rhstart] == x[b - start]
      {
        assert t.rh[b - t.rhstart] == t.dev[b];
      }
    }
  }

  /** The window holds what is on the media under the dirty run. */
  ghost predicate MediaAgrees<B>(s: State<B>)
    requires |s.rh| > 0 ==> OnMedia(s.dev, s.rhstart, s.rh)
  {
    forall b | InRun(b, s.rhstart, s.rh) && InRun(b, s.wrstart, s.wr) :: s.rh[b - s.rhstart] == s.dev[b]
  }

  /** Dropping the run keeps the window coherent exactly when it does. */
  lemma LossKeepsWindowExactlyWhen<B>(s: State<B>)
    requires |s.rh| > 0 ==> OnMedia(s.dev, s.rhstart, s.rh)
    requires WindowOk(s)
    ensures WindowOk(ResetRun(s)) <==> MediaAgrees(s)
  {
    var t := ResetRun(s);
    if WindowOk(t) {
      forall b | InRun(b, s.rhstart, s.rh) && InRun(b, s.wrstart, s.wr) ensures s.rh[b - s.rhstart] == s.dev[b] {
        assert !InRun(b, t.wrstart, t.wr) && t.rh[b - t.rhstart] == t.dev[b];
      }
    }
  }

  // -------------------------------------------------------------------------
  // Invalidating a region of the window

  /** Whether the window reaches from before the region into it, and not beyond it. */
  predicate TailCase<B>(s: State<B>, start: int, n: nat)
  {
    s.rhstart < start < s.rhstart + |s.rh| <= start + n
  }

  /** Whether the window reaches from inside the region to beyond it. */
  predicate HeadCase<B>(s: State<B>, start: int, n: nat)
  {
    start <= s.rhstart < start + n < s.rhstart + |s.rh|
  }

  /** rwb_invalidate_readahead */
  function InvalidatedWindow<B>(s: State<B>, start: int, n: nat): State<B>
  {
    var rhbend, invend := s.rhstart + |s.rh|, start + n;
    if |s.rh| == 0 || rhbend <= start || s.rhstart >= invend then s
    else if s.rhstart >= start && rhbend <= invend then s.(rh := [])
    else if s.rhstart < start && rhbend > invend then s.(rh := s.rh[..start - s.rhstart])
    else if rhbend > start && rhbend <= invend then s.(rh := s.rh[..rhbend - start])
    else s.(rhstart := invend, rh := s.rh[invend - s.rhstart..])
  }

  /** What survives was in the window before, with the same contents. */
  lemma SurvivorsUnchanged<B>(s: State<B>, start: int, n: nat)
    ensures var t := InvalidatedWindow(s, start, n);
            && t == s.(rhstart := t.rhstart, rh := t.rh)
            && |t.rh| <= |s.rh|
            && forall b | InRun(b, t.rhstart, t.rh) ::
                 InRun(b, s.rhstart, s.rh) && t.rh[b - t.rhstart] == s.rh[b - s.rhstart]
  {
  }

  lemma InvalidateKeepsWindow<B>(s: State<B>, start: int, n: nat)
    requires |s.rh| > 0 ==> OnMedia(s.dev, s.rhstart, s.rh)
    requires WindowOk(s)
    ensures var t := InvalidatedWindow(s, start, n);
            (|t.rh| > 0 ==> OnMedia(t.dev, t.rhstart, t.rh)) && WindowOk(t)
  {
    SurvivorsUnchanged(s, start, n);
  }
}
