/** drivers/rwbuffer.c: invalidating a region of the read-ahead window, and which of the promises survive it. */
module RwInvalidate {
  import opened RwSpec
  import opened RwRuns
  import opened RwBuffer
  import opened Memory

  /** No block of the region survives exactly when the window does not end inside the region, or the part
      inside is not longer than the part before it. */
  lemma RegionGoneExactlyWhen<B>(s: State<B>, start: int, n: nat)
    ensures var t := InvalidatedWindow(s, start, n);
            (forall b :: !(InRun(b, t.rhstart, t.rh) && Within(b, start, n)))
            <==> (TailCase(s, start, n) ==> s.rhstart + |s.rh| - start <= start - s.rhstart)
  {
    var t := InvalidatedWindow(s, start, n);
    if TailCase(s, start, n) && s.rhstart + |s.rh| - start > start - s.rhstart {
      assert InRun(start, t.rhstart, t.rh) && Within(start, start, n);
    }
  }

  /** Blocks outside the region are all kept, except after a cut in the middle or at the tail. */
  lemma OutsideKept<B>(s: State<B>, start: int, n: nat, b: int)
    requires InRun(b, s.rhstart, s.rh) && !Within(b, start, n)
    ensures var t := InvalidatedWindow(s, start, n);
            InRun(b, t.rhstart, t.rh) <==>
              if TailCase(s, start, n) then b < s.rhstart + (s.rhstart + |s.rh| - start)
              else s.rhstart < start && s.rhstart + |s.rh| > start + n ==> b < start
  {
  }

  /** The last case: the blocks from invend on move to the front of the buffer. */
  method KeepFrom<B(0)>(rwb: Buffer<B>, invend: int)
    requires rwb.Shape() && rwb.rhblockstart <= invend <= rwb.rhblockstart + rwb.rhnblocks
    modifies rwb`rhblockstart, rwb`rhnblocks, rwb.rhbuffer
    ensures rwb.Shape()
    ensures rwb.Now() == old(rwb.Now()).(rhstart := invend, rh := old(rwb.Now()).rh[invend - old(rwb.rhblockstart)..])
  {
    ghost var before := rwb.Now();
    var ninval := invend - rwb.rhblockstart;
    var nkeep := rwb.rhnblocks - ninval;
    Memcpy(rwb.rhbuffer, 0, rwb.rhbuffer[ninval..ninval + nkeep]);
    rwb.rhblockstart := invend;
    rwb.rhnblocks := nkeep;
    assert rwb.rhbuffer[..nkeep] == rwb.rhbuffer[0..nkeep] == before.rh[ninval..];
  }

  /** The code, under rhsem. ret is never assigned when there is no window or in the last case. */
  method InvalidateReadahead<B(0)>(rwb: Buffer<B>, start: int, n: nat) returns (ret: int)
    requires rwb.Valid()
    modifies rwb, rwb.rhbuffer
    ensures rwb.Valid() && rwb.Now() == old(InvalidatedWindow(rwb.Now(), start, n))
    ensures rwb.history == old(rwb.history) + [Invalidate(start, n)] && (rwb.Good() <==> old(rwb.Good()))
    ensures rwb.timeouts == old(rwb.timeouts)
    ensures old(rwb.rhnblocks) > 0 && !old(HeadCase(rwb.Now(), start, n)) ==> ret == 0
  {
    hide Run, End, OneClient, NoLoss, AgreeAtFlushes, WindowOk;
    ghost var before := rwb.Now();
    ret := CutWindow(rwb, start, n);
    rwb.Record(before, Invalidate(start, n));
  }

  method CutWindow<B(0)>(rwb: Buffer<B>, start: int, n: nat) returns (ret: int)
    requires rwb.Shape()
    modifies rwb`rhblockstart, rwb`rhnblocks, rwb.rhbuffer
    ensures rwb.Shape() && rwb.Now() == old(InvalidatedWindow(rwb.Now(), start, n))
    ensures old(rwb.rhnblocks) > 0 && !old(HeadCase(rwb.Now(), start, n)) ==> ret == 0
  {
    ret := *;
    if rwb.rhmaxblocks > 0 && rwb.rhnblocks > 0 {
      ghost var before := rwb.Now();
      var rhbend := rwb.rhblockstart + rwb.rhnblocks;
      var invend := start + n;
      if rhbend <= start || rwb.rhblockstart >= invend {
        ret := 0;
      } else if rwb.rhblockstart >= start && rhbend <= invend {
        rwb.rhnblocks := 0;
        ret := 0;
      } else if rwb.rhblockstart < start && rhbend > invend {
        rwb.rhnblocks := start - rwb.rhblockstart;
        ret := 0;
        assert rwb.rhbuffer[..rwb.rhnblocks] == before.rh[..rwb.rhnblocks];
      } else if rhbend > start && rhbend <= invend {
        rwb.rhnblocks := rhbend - start;
        ret := 0;
        assert rwb.rhbuffer[..rwb.rhnblocks] == before.rh[..rwb.rhnblocks];
      } else {
        KeepFrom(rwb, invend);
      }
    }
  }
}
