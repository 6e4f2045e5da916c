/** drivers/rwbuffer.c when no callback fails and no timeout comes in between: the whole new state of
    rwb_read and rwb_write, and when their own flush leaves the window coherent. */
module RwQuiet {
  import opened RwSpec

  /** How many of n blocks from start on the window holds, up to the first that it does not. */
  function Served<B>(s: State<B>, start: int, n: nat): (k: nat)
    ensures k <= n && (forall b | Within(b, start, k) :: InRun(b, s.rhstart, s.rh))
    ensures k < n ==> !InRun(start + k, s.rhstart, s.rh)
  {
    if !Within(start, s.rhstart, |s.rh|) then 0
    else if n <= s.rhstart + |s.rh| - start then n
    else s.rhstart + |s.rh| - start
  }

  /** rwb_read_ of n blocks from start on: serve from the window, reload where it ends, and so on. */
  function Loaded<B>(s: State<B>, start: nat, n: nat, rhmax: nat): State<B>
    requires rhmax > 0 && start + n <= |s.dev|
    decreases n, if Within(start, s.rhstart, |s.rh|) then 0 else 1
  {
    var k := Served(s, start, n);
    if k == n then s else Loaded(Reloaded(s, start + k, rhmax), start + k, n - k, rhmax)
  }

  /** Only the window moves.  It is the old one if that held every block; otherwise it is a whole reload, full unless
      the media ends, from a block of the request on, and holds the last block asked for. */
  lemma {:induction false} LoadedWindow<B>(s: State<B>, start: nat, n: nat, rhmax: nat)
    requires rhmax > 0 && start + n <= |s.dev|
    ensures var t := Loaded(s, start, n, rhmax);
            && t == s.(rhstart := t.rhstart, rh := t.rh)
            && ((forall b | Within(b, start, n) :: InRun(b, s.rhstart, s.rh)) ==> t == s)
            && ((exists b :: Within(b, start, n) && !InRun(b, s.rhstart, s.rh)) ==>
                  && Within(t.rhstart, start, n) && InRun(start + n - 1, t.rhstart, t.rh)
                  && OnMedia(t.dev, t.rhstart, t.rh) && t.rh == t.dev[t.rhstart..t.rhstart + |t.rh|]
                  && (|t.rh| == rhmax || t.rhstart + |t.rh| == |t.dev|))
    decreases n, if Within(start, s.rhstart, |s.rh|) then 0 else 1
  {
    var k := Served(s, start, n);
    if k < n {
      var s' := Reloaded(s, start + k, rhmax);
      assert Within(start + k, start, n);
      LoadedWindow(s', start + k, n - k, rhmax);
      if forall b | Within(b, start + k, n - k) :: InRun(b, s'.rhstart, s'.rh) {
        assert Within(start + n - 1, start + k, n - k);
      }
    }
  }

  /** How many blocks of a request come before the dirty run, if the request meets it. */
  function Before<B>(s: State<B>, start: int, n: nat): (k: nat)
    ensures k <= n
  {
    if Overlap(s.wrstart, |s.wr|, start, n) && s.wrstart > start then s.wrstart - start else 0
  }

  /** How many blocks of a request the section of rwb_read under wrsem delivers: up to the end of the dirty run. */
  function UpToRun<B>(s: State<B>, start: int, n: nat): (k: nat)
    ensures k <= n
  {
    if !Overlap(s.wrstart, |s.wr|, start, n) then 0
    else if start + n <= s.wrstart + |s.wr| then n
    else s.wrstart + |s.wr| - start
  }

  function LoadedIfAhead<B>(s: State<B>, start: nat, n: nat, rhmax: nat): (t: State<B>)
    requires start + n <= |s.dev|
    ensures t == s.(rhstart := t.rhstart, rh := t.rh)
  {
    if rhmax > 0 then
      LoadedWindow(s, start, n, rhmax);
      Loaded(s, start, n, rhmax)
    else s
  }

  /** rwb_read: load what comes before the dirty run, then what comes after it. */
  function AfterRead<B>(s: State<B>, start: nat, n: nat, wrmax: nat, rhmax: nat): State<B>
    requires start + n <= |s.dev|
  {
    if wrmax == 0 then LoadedIfAhead(s, start, n, rhmax)
    else
      var k := UpToRun(s, start, n);
      LoadedIfAhead(LoadedIfAhead(s, start, Before(s, start, n), rhmax), start + k, n - k, rhmax)
  }

  predicate RunInRange<B>(s: State<B>) { |s.wr| > 0 ==> OnMedia(s.dev, s.wrstart, s.wr) }

  /** What rwb_write finds when the dirty run lies on the media. */
  predicate Ready<B>(s: State<B>, wrmax: nat)
  {
    RunInRange(s) && |s.wr| <= wrmax && (|s.wr| > 0 ==> s.wrexpected == s.wrstart + |s.wr|)
  }

  function FlushedIfDirty<B>(s: State<B>): State<B>
    requires RunInRange(s)
  {
    if |s.wr| > 0 then Flushed(s) else s
  }

  function Cleared<B>(s: State<B>, start: int, n: nat, rhmax: nat): State<B>
  {
    if rhmax > 0 then WindowClearOf(s, start, n) else s
  }

  /** The section of rwb_write under wrsem. */
  function WrittenOut<B>(s: State<B>, start: nat, x: seq<B>, wrmax: nat): State<B>
    requires Ready(s, wrmax) && start + |x| <= |s.dev|
  {
    if wrmax == 0 then Direct(s, start, x)
    else if |x| > wrmax then Direct(FlushedIfDirty(s), start, x)
    else Buffered(s, start, x, wrmax)
  }

  /** Whether that section flushes the dirty run. */
  predicate WriteFlushes<B>(s: State<B>, start: int, n: nat, wrmax: nat)
  {
    |s.wr| > 0 && (n > wrmax || MustFlush(s, start, n, wrmax))
  }

  /** If it does, the window agrees with the run. */
  ghost predicate WriteAgrees<B>(s: State<B>, start: int, n: nat, wrmax: nat)
  {
    WriteFlushes(s, start, n, wrmax) ==> OverlapAgrees(s)
  }

  /** rwb_write */
  function AfterWrite<B>(s: State<B>, start: nat, x: seq<B>, wrmax: nat, rhmax: nat): State<B>
    requires Ready(s, wrmax) && start + |x| <= |s.dev|
  {
    WrittenOut(Cleared(s, start, |x|, rhmax), start, x, wrmax)
  }

  lemma AfterWriteReady<B>(s: State<B>, start: nat, x: seq<B>, wrmax: nat, rhmax: nat)
    requires Ready(s, wrmax) && start + |x| <= |s.dev|
    ensures Ready(AfterWrite(s, start, x, wrmax, rhmax), wrmax)
    ensures |AfterWrite(s, start, x, wrmax, rhmax).dev| == |s.dev|
  {
  }

  /** On every path a write updates exactly the blocks it names, of what the client sees. */
  lemma AfterWriteImage<B>(s: State<B>, start: nat, x: seq<B>, wrmax: nat, rhmax: nat)
    requires Ready(s, wrmax) && start + |x| <= |s.dev|
    ensures Image(AfterWrite(s, start, x, wrmax, rhmax)) == Image(s) + RunMap(start, x)
  {
    hide RunMap;
    var t := Cleared(s, start, |x|, rhmax);
    if |x| <= wrmax && wrmax > 0 {
      BufferedWrites(t, start, x, wrmax);
    } else {
      if |t.wr| > 0 { FlushKeepsImage(t); }
      DirectWritesExactlyWhen(FlushedIfDirty(t), start, x);
    }
  }

  /** The media is spared exactly when the blocks fit behind the dirty run, or start a run. */
  lemma MediaSparedExactlyWhen<B>(s: State<B>, start: nat, x: seq<B>, wrmax: nat, rhmax: nat)
    requires Ready(s, wrmax) && start + |x| <= |s.dev| && wrmax > 0
    ensures var t := AfterWrite(s, start, x, wrmax, rhmax);
            if |s.wr| == 0 && |x| <= wrmax then t.dev == s.dev && t.wrstart == start && t.wr == x
            else if |s.wr| > 0 && start == s.wrstart + |s.wr| && |s.wr| + |x| <= wrmax then
              t.dev == s.dev && t.wrstart == s.wrstart && t.wr == s.wr + x
            else if |x| <= wrmax then t.dev == Overlay(s.dev, s.wrstart, s.wr) && t.wrstart == start && t.wr == x
            else t.wr == []
  {
    assert [] + x == x;
  }

  /** A write that finds the window clear of its blocks and of the dirty run leaves it so. */
  lemma WrittenOutDisjoint<B>(s: State<B>, start: nat, x: seq<B>, wrmax: nat)
    requires Ready(s, wrmax) && start + |x| <= |s.dev| && Disjoint(s) && ClearOf(s, start, x)
    ensures Disjoint(WrittenOut(s, start, x, wrmax)) && WriteAgrees(s, start, |x|, wrmax)
  {
    var t := WrittenOut(s, start, x, wrmax);
    forall b | InRun(b, t.wrstart, t.wr) ensures InRun(b, s.wrstart, s.wr) || InRun(b, start, x) {}
  }
}
