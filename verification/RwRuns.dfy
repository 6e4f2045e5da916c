/** Runs of the buffer: the sections between two lock operations of rwb_write, rwb_read, rwb_flush,
    rwb_invalidate_readahead and rwb_wrtimeout, of any number of clients and in any order, with callbacks that
    transfer every block or fail. */
module RwRuns {
  import opened RwSpec

  /** One section between two lock operations. */
  datatype Step<B> =
    | BufferWrite(start: int, x: seq<B>)  // rwb_writebuffer under wrsem
    | DirectWrite(start: int, x: seq<B>)  // wrflush of the caller's own data, under no lock
    | FlushRun                            // rwb_wrflush: rwb_flush, rwb_wrtimeout, a large write
    | ClearWindow(start: int, n: nat)     // the rhsem section of rwb_write
    | Invalidate(start: int, n: nat)      // rwb_invalidate_readahead
    | Reload(first: nat)                  // rwb_rhreload
    | DropWindow                          // rwb_rhreload whose callback fails
    | LoseRun                             // rwb_wrflush whose callback fails

  predicate Flushes<B>(s: State<B>, step: Step<B>, wrmax: nat)
  {
    match step
    case BufferWrite(start, x) => MustFlush(s, start, |x|, wrmax)
    case FlushRun => |s.wr| > 0
    case _ => false
  }

  /** What the code guarantees where the section runs, whatever other clients do. */
  ghost predicate Enabled<B>(s: State<B>, step: Step<B>, wrmax: nat)
  {
    && (Flushes(s, step, wrmax) ==> OnMedia(s.dev, s.wrstart, s.wr))
    && match step
       case BufferWrite(start, x) => 0 <= start && |x| <= wrmax
       case DirectWrite(start, x) => OnMedia(s.dev, start, x)
       case Reload(first) => first < |s.dev|
       case LoseRun => |s.wr| > 0
       case _ => true
  }

  /** What it guarantees besides when there is one client: a write comes after the window was cleared of its
      blocks, a direct write also after the flush of the run. */
  ghost predicate Alone<B>(s: State<B>, step: Step<B>)
  {
    match step
    case BufferWrite(start, x) => ClearOf(s, start, x)
    case DirectWrite(start, x) => s.wr == [] && ClearOf(s, start, x)
    case _ => true
  }

  ghost function Next<B>(s: State<B>, step: Step<B>, wrmax: nat, rhmax: nat): State<B>
    requires Enabled(s, step, wrmax)
  {
    match step
    case BufferWrite(start, x) => Buffered(s, start, x, wrmax)
    case DirectWrite(start, x) => Direct(s, start, x)
    case FlushRun => if |s.wr| > 0 then Flushed(s) else s
    case ClearWindow(start, n) => WindowClearOf(s, start, n)
    case Invalidate(start, n) => InvalidatedWindow(s, start, n)
    case Reload(first) => Reloaded(s, first, rhmax)
    case DropWindow => ResetWindow(s)
    case LoseRun => ResetRun(s)
  }

  ghost predicate Run<B>(s: State<B>, steps: seq<Step<B>>, wrmax: nat, rhmax: nat)
    decreases |steps|
  {
    steps != [] ==>
      Enabled(s, steps[0], wrmax) && Run(Next(s, steps[0], wrmax, rhmax), steps[1..], wrmax, rhmax)
  }

  ghost function End<B>(s: State<B>, steps: seq<Step<B>>, wrmax: nat, rhmax: nat): State<B>
    requires Run(s, steps, wrmax, rhmax)
    decreases |steps|
  {
    if steps == [] then s else End(Next(s, steps[0], wrmax, rhmax), steps[1..], wrmax, rhmax)
  }

  ghost predicate OneClient<B>(s: State<B>, steps: seq<Step<B>>, wrmax: nat, rhmax: nat)
    requires Run(s, steps, wrmax, rhmax)
    decreases |steps|
  {
    steps != [] ==>
      Alone(s, steps[0]) && OneClient(Next(s, steps[0], wrmax, rhmax), steps[1..], wrmax, rhmax)
  }

  /** No dirty run was dropped by a failing rwb_wrflush. */
  predicate NoLoss<B>(steps: seq<Step<B>>)
  {
    steps != [] ==> !steps[0].LoseRun? && NoLoss(steps[1..])
  }

  lemma StepKeepsShape<B>(s: State<B>, step: Step<B>, wrmax: nat, rhmax: nat)
    requires WellFormed(s, wrmax, rhmax) && Enabled(s, step, wrmax)
    ensures WellFormed(Next(s, step, wrmax, rhmax), wrmax, rhmax)
    ensures |Next(s, step, wrmax, rhmax).dev| == |s.dev|
  {
    match step
    case Invalidate(start, n) => SurvivorsUnchanged(s, start, n);
    case _ =>
  }

  // -------------------------------------------------------------------------
  // Coherence of the window

  /** What a section must find for the window to stay coherent. */
  ghost predicate Agrees<B>(s: State<B>, step: Step<B>, wrmax: nat)
    requires |s.rh| > 0 ==> OnMedia(s.dev, s.rhstart, s.rh)
  {
    match step
    case BufferWrite(start, x) => MustFlush(s, start, |x|, wrmax) ==> OverlapAgreesOutside(s, start, x)
    case DirectWrite(start, x) => WindowAgrees(s, start, x)
    case FlushRun => |s.wr| > 0 ==> OverlapAgrees(s)
    case LoseRun => MediaAgrees(s)
    case _ => true
  }

  /** One section keeps the window coherent exactly when it finds that. */
  lemma StepKeepsWindowExactlyWhen<B>(s: State<B>, step: Step<B>, wrmax: nat, rhmax: nat)
    requires WellFormed(s, wrmax, rhmax) && Enabled(s, step, wrmax) && WindowOk(s)
    ensures WellFormed(Next(s, step, wrmax, rhmax), wrmax, rhmax)
    ensures WindowOk(Next(s, step, wrmax, rhmax)) <==> Agrees(s, step, wrmax)
  {
    StepKeepsShape(s, step, wrmax, rhmax);
    match step
    case BufferWrite(start, x) => BufferedKeepsWindowExactlyWhen(s, start, x, wrmax);
    case DirectWrite(start, x) => DirectKeepsWindowExactlyWhen(s, start, x);
    case FlushRun => if |s.wr| > 0 { FlushKeepsWindowExactlyWhen(s); }
    case LoseRun => LossKeepsWindowExactlyWhen(s);
    case Invalidate(start, n) => InvalidateKeepsWindow(s, start, n);
    case ClearWindow(start, n) =>
    case Reload(first) =>
    case DropWindow =>
  }

  ghost predicate AgreeThroughout<B>(s: State<B>, steps: seq<Step<B>>, wrmax: nat, rhmax: nat)
    requires WellFormed(s, wrmax, rhmax) && Run(s, steps, wrmax, rhmax)
    decreases |steps|
  {
    steps != [] ==>
      && Agrees(s, steps[0], wrmax)
      && (StepKeepsShape(s, steps[0], wrmax, rhmax);
          AgreeThroughout(Next(s, steps[0], wrmax, rhmax), steps[1..], wrmax, rhmax))
  }

  /** The window is coherent at every lock boundary of the run. */
  ghost predicate CoherentThroughout<B>(s: State<B>, steps: seq<Step<B>>, wrmax: nat, rhmax: nat)
    requires WellFormed(s, wrmax, rhmax) && Run(s, steps, wrmax, rhmax)
    decreases |steps|
  {
    && WindowOk(s)
    && (steps != [] ==>
          (StepKeepsShape(s, steps[0], wrmax, rhmax);
           CoherentThroughout(Next(s, steps[0], wrmax, rhmax), steps[1..], wrmax, rhmax)))
  }

  /** For any number of clients, a run is coherent throughout exactly when each of its sections finds agreement. */
  lemma {:induction false} CoherentExactlyWhenAllAgree<B>(s: State<B>, steps: seq<Step<B>>, wrmax: nat, rhmax: nat)
    requires WellFormed(s, wrmax, rhmax) && WindowOk(s) && Run(s, steps, wrmax, rhmax)
    ensures CoherentThroughout(s, steps, wrmax, rhmax) <==> AgreeThroughout(s, steps, wrmax, rhmax)
    decreases |steps|
  {
    hide Next, WindowOk, Agrees;
    if steps != [] {
      var s1 := Next(s, steps[0], wrmax, rhmax);
      StepKeepsWindowExactlyWhen(s, steps[0], wrmax, rhmax);
      if WindowOk(s1) {
        CoherentExactlyWhenAllAgree(s1, steps[1..], wrmax, rhmax);
      }
    }
  }

  lemma {:induction false} CoherentAtEnd<B>(s: State<B>, steps: seq<Step<B>>, wrmax: nat, rhmax: nat)
    requires WellFormed(s, wrmax, rhmax) && Run(s, steps, wrmax, rhmax)
    requires CoherentThroughout(s, steps, wrmax, rhmax)
    ensures WellFormed(End(s, steps, wrmax, rhmax), wrmax, rhmax)
    ensures WindowOk(End(s, steps, wrmax, rhmax))
    decreases |steps|
  {
    hide Next, WindowOk;
    if steps != [] {
      StepKeepsShape(s, steps[0], wrmax, rhmax);
      CoherentAtEnd(Next(s, steps[0], wrmax, rhmax), steps[1..], wrmax, rhmax);
    }
  }

  /** At every flush of the run, the window already holds the dirty contents of the dirty blocks in it;
      in particular when no dirty block is in the window. */
  ghost predicate AgreeAtFlushes<B>(s: State<B>, steps: seq<Step<B>>, wrmax: nat, rhmax: nat)
    requires Run(s, steps, wrmax, rhmax)
    decreases |steps|
  {
    steps != [] ==>
      && (Flushes(s, steps[0], wrmax) ==> OverlapAgrees(s))
      && AgreeAtFlushes(Next(s, steps[0], wrmax, rhmax), steps[1..], wrmax, rhmax)
  }

  lemma AloneAgrees<B>(s: State<B>, step: Step<B>, wrmax: nat, rhmax: nat)
    requires WellFormed(s, wrmax, rhmax) && Alone(s, step) && !step.LoseRun?
    ensures Agrees(s, step, wrmax) <==> (Flushes(s, step, wrmax) ==> OverlapAgrees(s))
  {
    match step
    case BufferWrite(start, x) => OutsideWhenClear(s, start, x);
    case _ =>
  }

  /** With one client and no failed flush, only the flushes matter. */
  lemma {:induction false} OneClientAgrees<B>(s: State<B>, steps: seq<Step<B>>, wrmax: nat, rhmax: nat)
    requires WellFormed(s, wrmax, rhmax) && Run(s, steps, wrmax, rhmax)
    requires OneClient(s, steps, wrmax, rhmax) && NoLoss(steps)
    ensures AgreeThroughout(s, steps, wrmax, rhmax) <==> AgreeAtFlushes(s, steps, wrmax, rhmax)
    decreases |steps|
  {
    hide Next, Agrees, OverlapAgrees, Flushes, Alone;
    if steps != [] {
      StepKeepsShape(s, steps[0], wrmax, rhmax);
      AloneAgrees(s, steps[0], wrmax, rhmax);
      OneClientAgrees(Next(s, steps[0], wrmax, rhmax), steps[1..], wrmax, rhmax);
    }
  }

  /** So with one client a run is coherent throughout exactly when each of its flushes finds the window and the
      dirty run in agreement where they overlap. */
  lemma CoherentExactlyWhenFlushesAgree<B>(s: State<B>, steps: seq<Step<B>>, wrmax: nat, rhmax: nat)
    requires WellFormed(s, wrmax, rhmax) && WindowOk(s) && Run(s, steps, wrmax, rhmax)
    requires OneClient(s, steps, wrmax, rhmax) && NoLoss(steps)
    ensures CoherentThroughout(s, steps, wrmax, rhmax) <==> AgreeAtFlushes(s, steps, wrmax, rhmax)
  {
    CoherentExactlyWhenAllAgree(s, steps, wrmax, rhmax);
    OneClientAgrees(s, steps, wrmax, rhmax);
  }

  /** No reload reads a dirty block. */
  ghost predicate ReloadsMissRun<B>(s: State<B>, steps: seq<Step<B>>, wrmax: nat, rhmax: nat)
    requires Run(s, steps, wrmax, rhmax)
    decreases |steps|
  {
    steps != [] ==>
      && (steps[0].Reload? ==> Disjoint(Reloaded(s, steps[0].first, rhmax)))
      && ReloadsMissRun(Next(s, steps[0], wrmax, rhmax), steps[1..], wrmax, rhmax)
  }

  lemma StepKeepsDisjoint<B>(s: State<B>, step: Step<B>, wrmax: nat, rhmax: nat)
    requires WellFormed(s, wrmax, rhmax) && Enabled(s, step, wrmax) && Alone(s, step) && Disjoint(s)
    requires step.Reload? ==> Disjoint(Reloaded(s, step.first, rhmax))
    ensures Disjoint(Next(s, step, wrmax, rhmax))
  {
    match step
    case BufferWrite(start, x) =>
      var t := Next(s, step, wrmax, rhmax);
      assert forall b | InRun(b, t.wrstart, t.wr) :: InRun(b, s.wrstart, s.wr) || InRun(b, start, x);
    case Invalidate(start, n) => SurvivorsUnchanged(s, start, n);
    case _ =>
  }

  /** A condition on positions alone: with one client, if no reload reads a dirty block then every flush finds
      the two buffers disjoint. */
  lemma {:induction false} MissingReloadsAgree<B>(s: State<B>, steps: seq<Step<B>>, wrmax: nat, rhmax: nat)
    requires WellFormed(s, wrmax, rhmax) && Run(s, steps, wrmax, rhmax) && OneClient(s, steps, wrmax, rhmax)
    requires Disjoint(s) && ReloadsMissRun(s, steps, wrmax, rhmax)
    ensures AgreeAtFlushes(s, steps, wrmax, rhmax)
    decreases |steps|
  {
    hide Next;
    if steps != [] {
      StepKeepsShape(s, steps[0], wrmax, rhmax);
      StepKeepsDisjoint(s, steps[0], wrmax, rhmax);
      MissingReloadsAgree(Next(s, steps[0], wrmax, rhmax), steps[1..], wrmax, rhmax);
    }
  }

  // -------------------------------------------------------------------------
  // The reference: a plain array of blocks

  function WriteOf<B>(step: Step<B>): map<int, B>
  {
    match step
    case BufferWrite(start, x) => RunMap(start, x)
    case DirectWrite(start, x) => RunMap(start, x)
    case _ => map[]
  }

  function Plain<B>(m: map<int, B>, steps: seq<Step<B>>): map<int, B>
    decreases |steps|
  {
    if steps == [] then m else Plain(m + WriteOf(steps[0]), steps[1..])
  }

  /** What a section must find for the client's write, and nothing else, to show. */
  ghost predicate Shows<B>(s: State<B>, step: Step<B>)
  {
    match step
    case DirectWrite(start, x) => DirtyAgrees(s, start, x)
    case LoseRun => RunOnMedia(s)
    case _ => true
  }

  lemma StepWritesExactlyWhen<B>(s: State<B>, step: Step<B>, wrmax: nat, rhmax: nat)
    requires WellFormed(s, wrmax, rhmax) && Enabled(s, step, wrmax)
    ensures Image(Next(s, step, wrmax, rhmax)) == Image(s) + WriteOf(step) <==> Shows(s, step)
  {
    hide Image, RunMap, Flushed, Buffered, Direct, InvalidatedWindow, DirtyAgrees, RunOnMedia;
    assert Image(s) + map[] == Image(s);
    match step
    case BufferWrite(start, x) => BufferedWrites(s, start, x, wrmax);
    case DirectWrite(start, x) => DirectWritesExactlyWhen(s, start, x);
    case FlushRun => if |s.wr| > 0 { FlushKeepsImage(s); }
    case LoseRun => LossShowsExactlyWhen(s);
    case ClearWindow(start, n) => ImageIgnoresWindow(s, Next(s, step, wrmax, rhmax));
    case Invalidate(start, n) =>
      SurvivorsUnchanged(s, start, n);
      ImageIgnoresWindow(s, Next(s, step, wrmax, rhmax));
    case Reload(first) => ImageIgnoresWindow(s, Next(s, step, wrmax, rhmax));
    case DropWindow => ImageIgnoresWindow(s, Next(s, step, wrmax, rhmax));
  }

  lemma ImageIgnoresWindow<B>(s: State<B>, s': State<B>)
    requires s.dev == s'.dev && s.wr == s'.wr && s.wrstart == s'.wrstart
    ensures Image(s) == Image(s')
  {
  }

  ghost predicate ShowThroughout<B>(s: State<B>, steps: seq<Step<B>>, wrmax: nat, rhmax: nat)
    requires Run(s, steps, wrmax, rhmax)
    decreases |steps|
  {
    steps != [] ==> Shows(s, steps[0]) && ShowThroughout(Next(s, steps[0], wrmax, rhmax), steps[1..], wrmax, rhmax)
  }

  /** At every lock boundary the image is the plain array m after the writes so far. */
  ghost predicate PlainThroughout<B>(s: State<B>, m: map<int, B>, steps: seq<Step<B>>, wrmax: nat, rhmax: nat)
    requires Run(s, steps, wrmax, rhmax)
    decreases |steps|
  {
    && Image(s) == m
    && (steps != [] ==>
          PlainThroughout(Next(s, steps[0], wrmax, rhmax), m + WriteOf(steps[0]), steps[1..], wrmax, rhmax))
  }

  /** For any number of clients: the image is the plain array throughout exactly when no direct write is hidden
      by a dirty block with other contents and no dropped run differs from the media. */
  lemma {:induction false} PlainExactlyWhenAllShow<B>(s: State<B>, steps: seq<Step<B>>, wrmax: nat, rhmax: nat)
    requires WellFormed(s, wrmax, rhmax) && Run(s, steps, wrmax, rhmax)
    ensures PlainThroughout(s, Image(s), steps, wrmax, rhmax) <==> ShowThroughout(s, steps, wrmax, rhmax)
    decreases |steps|
  {
    hide Image, Next, WriteOf, Shows;
    if steps != [] {
      var s1 := Next(s, steps[0], wrmax, rhmax);
      StepKeepsShape(s, steps[0], wrmax, rhmax);
      StepWritesExactlyWhen(s, steps[0], wrmax, rhmax);
      if Image(s1) == Image(s) + WriteOf(steps[0]) {
        PlainExactlyWhenAllShow(s1, steps[1..], wrmax, rhmax);
      }
    }
  }

  lemma {:induction false} PlainAtEnd<B>(s: State<B>, m: map<int, B>, steps: seq<Step<B>>, wrmax: nat, rhmax: nat)
    requires WellFormed(s, wrmax, rhmax) && Run(s, steps, wrmax, rhmax) && PlainThroughout(s, m, steps, wrmax, rhmax)
    ensures WellFormed(End(s, steps, wrmax, rhmax), wrmax, rhmax)
    ensures Image(End(s, steps, wrmax, rhmax)) == Plain(m, steps)
    decreases |steps|
  {
    hide Image, Next, WriteOf;
    if steps != [] {
      StepKeepsShape(s, steps[0], wrmax, rhmax);
      PlainAtEnd(Next(s, steps[0], wrmax, rhmax), m + WriteOf(steps[0]), steps[1..], wrmax, rhmax);
    }
  }

  lemma {:induction false} OneClientShows<B>(s: State<B>, steps: seq<Step<B>>, wrmax: nat, rhmax: nat)
    requires Run(s, steps, wrmax, rhmax) && OneClient(s, steps, wrmax, rhmax) && NoLoss(steps)
    ensures ShowThroughout(s, steps, wrmax, rhmax)
    decreases |steps|
  {
    hide Next;
    if steps != [] {
      OneClientShows(Next(s, steps[0], wrmax, rhmax), steps[1..], wrmax, rhmax);
    }
  }

  /** A run in which all agree and all show refines the plain array: every block then reads as its last write. */
  lemma RunRefinesPlainArray<B>(s: State<B>, steps: seq<Step<B>>, wrmax: nat, rhmax: nat)
    requires WellFormed(s, wrmax, rhmax) && WindowOk(s) && Run(s, steps, wrmax, rhmax)
    requires AgreeThroughout(s, steps, wrmax, rhmax) && ShowThroughout(s, steps, wrmax, rhmax)
    ensures var e, m := End(s, steps, wrmax, rhmax), Plain(Image(s), steps);
            WellFormed(e, wrmax, rhmax) && Image(e) == m && forall b | b in m :: Seen(e, b) == m[b]
  {
    hide Image, Seen, WindowOk;
    PlainExactlyWhenAllShow(s, steps, wrmax, rhmax);
    PlainAtEnd(s, Image(s), steps, wrmax, rhmax);
    CoherentExactlyWhenAllAgree(s, steps, wrmax, rhmax);
    CoherentAtEnd(s, steps, wrmax, rhmax);
    CoherentExactlyWhenWindowOk(End(s, steps, wrmax, rhmax));
  }

  /** With one client and no failed flush, agreement at the flushes is enough. */
  lemma OneClientRefinesPlainArray<B>(s: State<B>, steps: seq<Step<B>>, wrmax: nat, rhmax: nat)
    requires WellFormed(s, wrmax, rhmax) && WindowOk(s) && Run(s, steps, wrmax, rhmax)
    requires OneClient(s, steps, wrmax, rhmax) && NoLoss(steps) && AgreeAtFlushes(s, steps, wrmax, rhmax)
    ensures var e, m := End(s, steps, wrmax, rhmax), Plain(Image(s), steps);
            WellFormed(e, wrmax, rhmax) && Image(e) == m && forall b | b in m :: Seen(e, b) == m[b]
  {
    OneClientAgrees(s, steps, wrmax, rhmax);
    OneClientShows(s, steps, wrmax, rhmax);
    RunRefinesPlainArray(s, steps, wrmax, rhmax);
  }

  /** With read-ahead disabled the condition always holds. */
  lemma {:induction false} NoReadAheadAgrees<B>(s: State<B>, steps: seq<Step<B>>, wrmax: nat)
    requires WellFormed(s, wrmax, 0) && Run(s, steps, wrmax, 0)
    ensures AgreeAtFlushes(s, steps, wrmax, 0)
    decreases |steps|
  {
    if steps != [] {
      StepKeepsShape(s, steps[0], wrmax, 0);
      NoReadAheadAgrees(Next(s, steps[0], wrmax, 0), steps[1..], wrmax);
    }
  }

  /** With write buffering disabled nothing is flushed later and nothing can be lost. */
  lemma {:induction false} NoWriteBufferAgrees<B>(s: State<B>, steps: seq<Step<B>>, rhmax: nat)
    requires WellFormed(s, 0, rhmax) && Run(s, steps, 0, rhmax)
    ensures NoLoss(steps) && AgreeAtFlushes(s, steps, 0, rhmax)
    decreases |steps|
  {
    if steps != [] {
      StepKeepsShape(s, steps[0], 0, rhmax);
      NoWriteBufferAgrees(Next(s, steps[0], 0, rhmax), steps[1..], rhmax);
    }
  }

  lemma ThreeSteps<B>(s: State<B>, s1: State<B>, s2: State<B>, s3: State<B>,
                      a: Step<B>, b: Step<B>, c: Step<B>, wrmax: nat, rhmax: nat)
    requires Enabled(s, a, wrmax) && Next(s, a, wrmax, rhmax) == s1
    requires Enabled(s1, b, wrmax) && Next(s1, b, wrmax, rhmax) == s2
    requires Enabled(s2, c, wrmax) && Next(s2, c, wrmax, rhmax) == s3
    ensures Run(s, [a, b, c], wrmax, rhmax) && End(s, [a, b, c], wrmax, rhmax) == s3
  {
    hide Enabled, Next;
    assert [a, b, c][1..] == [b, c] && [b, c][1..] == [c] && [c][1..] == [];
    assert Run(s3, [], wrmax, rhmax) && End(s3, [], wrmax, rhmax) == s3;
    assert Run(s2, [c], wrmax, rhmax) && End(s2, [c], wrmax, rhmax) == s3;
    assert Run(s1, [b, c], wrmax, rhmax) && End(s1, [b, c], wrmax, rhmax) == s3;
  }

  /** A write, a read that loads ahead over the dirty block, and a timeout: the next read of
      the block returns what it held before the write. */
  lemma StaleRead()
    ensures var s := State([0, 0, 0, 0], -1, [], -1, -1, []);
            var steps := [BufferWrite(1, [7]), Reload(0), FlushRun];
            && WellFormed(s, 4, 4) && WindowOk(s) && Run(s, steps, 4, 4)
            && var e := End(s, steps, 4, 4);
               WellFormed(e, 4, 4) && 1 in Image(e) && Image(e)[1] == 7 && Seen(e, 1) == 0
  {
    var s := State([0, 0, 0, 0], -1, [], -1, -1, []);
    var s1 := s.(wrstart := 1, wr := [7], wrexpected := 2);
    var s2 := s1.(rhstart := 0, rh := [0, 0, 0, 0]);
    var s3 := State([0, 7, 0, 0], -1, [], -1, 0, [0, 0, 0, 0]);
    assert Next(s, BufferWrite(1, [7]), 4, 4) == s1;
    assert Next(s1, Reload(0), 4, 4) == s2 by { assert s1.dev[0..4] == s1.dev; }
    assert Next(s2, FlushRun, 4, 4) == s3 by { assert Overlay(s2.dev, 1, [7]) == [0, 7, 0, 0]; }
    ThreeSteps(s, s1, s2, s3, BufferWrite(1, [7]), Reload(0), FlushRun, 4, 4);
    assert InRun(1, 0, s3.dev);
  }

  /** Two clients and no write buffer: between the two locks of a write, the other client's read loads the
      block ahead; the direct write then leaves the window stale. */
  lemma TwoClientStaleRead()
    ensures var s := State([0, 0, 0, 0], -1, [], -1, -1, []);
            var steps := [ClearWindow(1, 1), Reload(0), DirectWrite(1, [7])];
            && WellFormed(s, 0, 4) && WindowOk(s) && Run(s, steps, 0, 4) && AgreeAtFlushes(s, steps, 0, 4)
            && var e := End(s, steps, 0, 4);
               WellFormed(e, 0, 4) && 1 in Image(e) && Image(e)[1] == 7 && Seen(e, 1) == 0
  {
    var s := State([0, 0, 0, 0], -1, [], -1, -1, []);
    var s2 := s.(rhstart := 0, rh := [0, 0, 0, 0]);
    var s3 := s2.(dev := [0, 7, 0, 0]);
    var a, b, c := ClearWindow(1, 1), Reload(0), DirectWrite(1, [7]);
    assert Next(s, a, 0, 4) == s;
    assert Next(s, b, 0, 4) == s2 by { assert s.dev[0..4] == s.dev; }
    assert Next(s2, c, 0, 4) == s3 by { assert Overlay(s2.dev, 1, [7]) == [0, 7, 0, 0]; }
    ThreeSteps(s, s, s2, s3, a, b, c, 0, 4);
    NoWriteBufferAgrees(s, [a, b, c], 4);
    assert InRun(1, 0, s3.dev);
  }

  /** Two clients: between the flush and the transfer of a direct write the other client buffers a block of it. */
  lemma OvertakenWrite(s: State<int>, s2: State<int>, s3: State<int>)
    requires s == State([0, 0], -1, [], -1, -1, [])
    requires s2 == s.(wrstart := 1, wr := [5], wrexpected := 2) && s3 == s2.(dev := [7, 7])
    ensures Enabled(s, FlushRun, 1) && Next(s, FlushRun, 1, 0) == s
    ensures Enabled(s, BufferWrite(1, [5]), 1) && Next(s, BufferWrite(1, [5]), 1, 0) == s2
    ensures Enabled(s2, DirectWrite(0, [7, 7]), 1) && Next(s2, DirectWrite(0, [7, 7]), 1, 0) == s3
    ensures 1 in Image(s) && 1 in Image(s2) && 1 in Image(s3)
    ensures Image(s)[1] == 0 && Image(s2)[1] == 5 && Image(s3)[1] == 5
  {
    assert Overlay(s2.dev, 0, [7, 7]) == [7, 7];
    OnImage(s, 1);
    OnImage(s2, 1);
    OnImage(s3, 1);
  }

  /** Its write of that block does not show. */
  lemma HiddenWrite()
    ensures var s := State([0, 0], -1, [], -1, -1, []);
            var steps := [FlushRun, BufferWrite(1, [5]), DirectWrite(0, [7, 7])];
            && WellFormed(s, 1, 0) && Run(s, steps, 1, 0)
            && var e := End(s, steps, 1, 0);
               1 in Image(e) && Image(e)[1] == 5 && Plain(Image(s), steps)[1] == 7
  {
    hide Enabled, Next, Image;
    var s := State([0, 0], -1, [], -1, -1, []);
    var s2 := s.(wrstart := 1, wr := [5], wrexpected := 2);
    var s3 := s2.(dev := [7, 7]);
    var a, b, c := FlushRun, BufferWrite(1, [5]), DirectWrite(0, [7, 7]);
    OvertakenWrite(s, s2, s3);
    ThreeSteps(s, s, s2, s3, a, b, c, 1, 0);
    PlainThree(Image(s), a, b, c);
    assert InRun(1, 0, [7, 7]) && 1 in RunMap(0, [7, 7]);
  }

  lemma PlainThree<B>(m: map<int, B>, a: Step<B>, b: Step<B>, c: Step<B>)
    ensures Plain(m, [a, b, c]) == m + WriteOf(a) + WriteOf(b) + WriteOf(c)
  {
    hide WriteOf;
    assert [a, b, c][1..] == [b, c] && [b, c][1..] == [c] && [c][1..] == [];
    var m1 := m + WriteOf(a);
    assert Plain(m1 + WriteOf(b), [c]) == Plain(m1 + WriteOf(b) + WriteOf(c), []);
    assert Plain(m1, [b, c]) == Plain(m1 + WriteOf(b), [c]);
  }

  // -------------------------------------------------------------------------
  // Reads of any client

  /** The value v was held by block b at some lock boundary of the run, or a direct write put it there. */
  ghost predicate HeldDuring<B>(s: State<B>, steps: seq<Step<B>>, b: int, v: B, wrmax: nat, rhmax: nat)
    requires Run(s, steps, wrmax, rhmax)
    decreases |steps|
  {
    || (b in Image(s) && Image(s)[b] == v)
    || (steps != [] &&
        (PutsDirectly(steps[0], b, v) || HeldDuring(Next(s, steps[0], wrmax, rhmax), steps[1..], b, v, wrmax, rhmax)))
  }

  predicate PutsDirectly<B(==)>(step: Step<B>, b: int, v: B)
  {
    step.DirectWrite? && InRun(b, step.start, step.x) && step.x[b - step.start] == v
  }

  /** What rwb_read_ delivers for a block, after rwb_read found it not dirty. */
  function Fetched<B>(s: State<B>, b: int): B
    requires InRun(b, 0, s.dev)
  {
    if InRun(b, s.rhstart, s.rh) then s.rh[b - s.rhstart] else s.dev[b]
  }

  lemma StepMedia<B>(s: State<B>, step: Step<B>, b: int, wrmax: nat, rhmax: nat)
    requires WellFormed(s, wrmax, rhmax) && Enabled(s, step, wrmax) && InRun(b, 0, s.dev)
    ensures var t := Next(s, step, wrmax, rhmax);
            && |t.dev| == |s.dev|
            && (t.dev[b] == s.dev[b] || t.dev[b] == Image(s)[b] || PutsDirectly(step, b, t.dev[b]))
            && (InRun(b, t.rhstart, t.rh) ==>
                  || t.rh[b - t.rhstart] == s.dev[b]
                  || (InRun(b, s.rhstart, s.rh) && t.rh[b - t.rhstart] == s.rh[b - s.rhstart]))
  {
    match step
    case BufferWrite(start, x) => if MustFlush(s, start, |x|, wrmax) { FlushedMedia(s); }
    case DirectWrite(start, x) => FlushedMedia(s.(wrstart := start, wr := x));
    case FlushRun => if |s.wr| > 0 { FlushedMedia(s); }
    case Invalidate(start, n) => SurvivorsUnchanged(s, start, n);
    case _ =>
  }

  lemma {:induction false} FetchedLater<B>(s: State<B>, steps: seq<Step<B>>, b: int, wrmax: nat, rhmax: nat)
    requires WellFormed(s, wrmax, rhmax) && Run(s, steps, wrmax, rhmax) && InRun(b, 0, s.dev)
    ensures var e := End(s, steps, wrmax, rhmax);
            && |e.dev| == |s.dev|
            && (|| Fetched(e, b) == s.dev[b] || Fetched(e, b) == Fetched(s, b)
                || HeldDuring(s, steps, b, Fetched(e, b), wrmax, rhmax))
    decreases |steps|
  {
    hide Next, Image, PutsDirectly;
    if steps != [] {
      StepKeepsShape(s, steps[0], wrmax, rhmax);
      StepMedia(s, steps[0], b, wrmax, rhmax);
      OnImage(s, b);
      FetchedLater(Next(s, steps[0], wrmax, rhmax), steps[1..], b, wrmax, rhmax);
    }
  }

  lemma OnImage<B>(s: State<B>, b: int)
    requires InRun(b, 0, s.dev) || InRun(b, s.wrstart, s.wr)
    ensures b in Image(s)
    ensures Image(s)[b] == if InRun(b, s.wrstart, s.wr) then s.wr[b - s.wrstart] else s.dev[b]
  {
  }

  /** A read looks for a block in the dirty run first and, if it is not there, later in the window and on the
      media. Whatever any number of clients and timeouts do in between, it delivers contents that the block
      held at some moment in between, or that a concurrent direct write put there. */
  lemma InterleavedRead<B>(s: State<B>, steps: seq<Step<B>>, b: int, wrmax: nat, rhmax: nat)
    requires WellFormed(s, wrmax, rhmax) && WindowOk(s) && Run(s, steps, wrmax, rhmax) && InRun(b, 0, s.dev)
    ensures var e := End(s, steps, wrmax, rhmax);
            && |e.dev| == |s.dev|
            && var v := if InRun(b, s.wrstart, s.wr) then s.wr[b - s.wrstart] else Fetched(e, b);
               HeldDuring(s, steps, b, v, wrmax, rhmax)
  {
    hide Next, Image, PutsDirectly;
    OnImage(s, b);
    FetchedLater(s, steps, b, wrmax, rhmax);
  }

  /** The value v was held by block b at some lock boundary of the run. */
  ghost predicate HeldAtBoundary<B>(s: State<B>, steps: seq<Step<B>>, b: int, v: B, wrmax: nat, rhmax: nat)
    requires Run(s, steps, wrmax, rhmax)
    decreases |steps|
  {
    || (b in Image(s) && Image(s)[b] == v)
    || (steps != [] && HeldAtBoundary(Next(s, steps[0], wrmax, rhmax), steps[1..], b, v, wrmax, rhmax))
  }

  lemma ShownIsHeld<B>(s: State<B>, step: Step<B>, b: int, v: B, wrmax: nat, rhmax: nat)
    requires WellFormed(s, wrmax, rhmax) && Enabled(s, step, wrmax) && Shows(s, step) && PutsDirectly(step, b, v)
    ensures b in Image(Next(s, step, wrmax, rhmax)) && Image(Next(s, step, wrmax, rhmax))[b] == v
  {
    hide Image, Next, Shows;
    StepWritesExactlyWhen(s, step, wrmax, rhmax);
    assert b in RunMap(step.start, step.x);
  }

  lemma {:induction false} ShownThroughoutIsHeld<B>(s: State<B>, steps: seq<Step<B>>, b: int, v: B,
                                                    wrmax: nat, rhmax: nat)
    requires WellFormed(s, wrmax, rhmax) && Run(s, steps, wrmax, rhmax) && ShowThroughout(s, steps, wrmax, rhmax)
    requires HeldDuring(s, steps, b, v, wrmax, rhmax)
    ensures HeldAtBoundary(s, steps, b, v, wrmax, rhmax)
    decreases |steps|
  {
    hide Image, Next, Shows, PutsDirectly;
    if steps != [] && !(b in Image(s) && Image(s)[b] == v) {
      var s1 := Next(s, steps[0], wrmax, rhmax);
      StepKeepsShape(s, steps[0], wrmax, rhmax);
      if PutsDirectly(steps[0], b, v) {
        ShownIsHeld(s, steps[0], b, v, wrmax, rhmax);
      } else {
        ShownThroughoutIsHeld(s1, steps[1..], b, v, wrmax, rhmax);
      }
    }
  }

  /** If every section shows, always contents that the block held at some moment in between. */
  lemma InterleavedReadOfShown<B>(s: State<B>, steps: seq<Step<B>>, b: int, wrmax: nat, rhmax: nat)
    requires WellFormed(s, wrmax, rhmax) && WindowOk(s) && Run(s, steps, wrmax, rhmax) && InRun(b, 0, s.dev)
    requires ShowThroughout(s, steps, wrmax, rhmax)
    ensures var e := End(s, steps, wrmax, rhmax);
            && |e.dev| == |s.dev|
            && var v := if InRun(b, s.wrstart, s.wr) then s.wr[b - s.wrstart] else Fetched(e, b);
               HeldAtBoundary(s, steps, b, v, wrmax, rhmax)
  {
    hide HeldDuring, HeldAtBoundary;
    InterleavedRead(s, steps, b, wrmax, rhmax);
    var e := End(s, steps, wrmax, rhmax);
    var v := if InRun(b, s.wrstart, s.wr) then s.wr[b - s.wrstart] else Fetched(e, b);
    ShownThroughoutIsHeld(s, steps, b, v, wrmax, rhmax);
  }

  /** Otherwise not: after the look the block is buffered, a direct write goes to the media under it, and the
      fetch delivers what no client ever sees there. */
  lemma HiddenWriteFetched()
    ensures var s := State([0, 0], -1, [], -1, -1, []);
            var steps := [FlushRun, BufferWrite(1, [5]), DirectWrite(0, [7, 7])];
            && WellFormed(s, 1, 0) && WindowOk(s) && Run(s, steps, 1, 0) && !InRun(1, s.wrstart, s.wr)
            && var e := End(s, steps, 1, 0);
               |e.dev| == 2 && Fetched(e, 1) == 7 && !HeldAtBoundary(s, steps, 1, 7, 1, 0)
  {
    hide Enabled, Next, Image;
    var s := State([0, 0], -1, [], -1, -1, []);
    var s2 := s.(wrstart := 1, wr := [5], wrexpected := 2);
    var s3 := s2.(dev := [7, 7]);
    var a, b, c := FlushRun, BufferWrite(1, [5]), DirectWrite(0, [7, 7]);
    OvertakenWrite(s, s2, s3);
    ThreeSteps(s, s, s2, s3, a, b, c, 1, 0);
    HeldInThree(s, s, s2, s3, a, b, c, 1, 7, 1, 0);
  }

  lemma HeldInThree<B>(s: State<B>, s1: State<B>, s2: State<B>, s3: State<B>,
                       a: Step<B>, b: Step<B>, c: Step<B>, block: int, v: B, wrmax: nat, rhmax: nat)
    requires Enabled(s, a, wrmax) && Next(s, a, wrmax, rhmax) == s1
    requires Enabled(s1, b, wrmax) && Next(s1, b, wrmax, rhmax) == s2
    requires Enabled(s2, c, wrmax) && Next(s2, c, wrmax, rhmax) == s3
    ensures Run(s, [a, b, c], wrmax, rhmax)
    ensures HeldAtBoundary(s, [a, b, c], block, v, wrmax, rhmax) ==>
              exists t | t in [s, s1, s2, s3] :: block in Image(t) && Image(t)[block] == v
  {
    hide Enabled, Next, Image;
    ThreeSteps(s, s1, s2, s3, a, b, c, wrmax, rhmax);
    assert [a, b, c][1..] == [b, c] && [b, c][1..] == [c] && [c][1..] == [];
    if HeldAtBoundary(s, [a, b, c], block, v, wrmax, rhmax) && !(block in Image(s) && Image(s)[block] == v) {
      assert HeldAtBoundary(s1, [b, c], block, v, wrmax, rhmax);
      if !(block in Image(s1) && Image(s1)[block] == v) {
        assert HeldAtBoundary(s2, [c], block, v, wrmax, rhmax);
        if !(block in Image(s2) && Image(s2)[block] == v) {
          assert HeldAtBoundary(s3, [], block, v, wrmax, rhmax);
        }
      }
    }
  }

  /** One more section at the end of a run. */
  lemma {:induction false} RunSnoc<B>(s: State<B>, steps: seq<Step<B>>, step: Step<B>, wrmax: nat, rhmax: nat)
    requires Run(s, steps, wrmax, rhmax) && Enabled(End(s, steps, wrmax, rhmax), step, wrmax)
    ensures Run(s, steps + [step], wrmax, rhmax)
    ensures End(s, steps + [step], wrmax, rhmax) == Next(End(s, steps, wrmax, rhmax), step, wrmax, rhmax)
    ensures NoLoss(steps + [step]) <==> NoLoss(steps) && !step.LoseRun?
    ensures OneClient(s, steps + [step], wrmax, rhmax) <==>
            OneClient(s, steps, wrmax, rhmax) && Alone(End(s, steps, wrmax, rhmax), step)
    ensures AgreeAtFlushes(s, steps + [step], wrmax, rhmax) <==>
            && AgreeAtFlushes(s, steps, wrmax, rhmax)
            && (Flushes(End(s, steps, wrmax, rhmax), step, wrmax) ==> OverlapAgrees(End(s, steps, wrmax, rhmax)))
    decreases |steps|
  {
    hide Enabled, Next, Flushes, OverlapAgrees, WriteOf, Alone;
    if steps == [] {
      assert [step][1..] == [] && [] + [step] == [step];
    } else {
      assert (steps + [step])[0] == steps[0] && (steps + [step])[1..] == steps[1..] + [step];
      RunSnoc(Next(s, steps[0], wrmax, rhmax), steps[1..], step, wrmax, rhmax);
    }
  }

  // -------------------------------------------------------------------------
  // Conservation of writes

  /** The blocks of a transfer, in the order they are transferred. */
  function Pairs<B>(start: int, x: seq<B>): seq<(int, B)> { seq(|x|, i requires 0 <= i < |x| => (start + i, x[i])) }

  /** What a section accepts from the client, and what it hands to wrflush. */
  function Accepts<B>(step: Step<B>): seq<(int, B)>
  {
    match step
    case BufferWrite(start, x) => Pairs(start, x)
    case DirectWrite(start, x) => Pairs(start, x)
    case _ => []
  }

  function Hands<B>(s: State<B>, step: Step<B>, wrmax: nat): seq<(int, B)>
  {
    match step
    case DirectWrite(start, x) => Pairs(start, x)
    case _ => if Flushes(s, step, wrmax) then Pairs(s.wrstart, s.wr) else []
  }

  ghost function Accepted<B>(steps: seq<Step<B>>): seq<(int, B)>
  {
    if steps == [] then [] else Accepts(steps[0]) + Accepted(steps[1..])
  }

  ghost function Handed<B>(s: State<B>, steps: seq<Step<B>>, wrmax: nat, rhmax: nat): seq<(int, B)>
    requires Run(s, steps, wrmax, rhmax)
    decreases |steps|
  {
    if steps == [] then []
    else Hands(s, steps[0], wrmax) + Handed(Next(s, steps[0], wrmax, rhmax), steps[1..], wrmax, rhmax)
  }

  lemma {:induction false} AcceptedSnoc<B>(steps: seq<Step<B>>, step: Step<B>)
    ensures Accepted(steps + [step]) == Accepted(steps) + Accepts(step)
  {
    hide Accepts;
    if steps == [] {
      assert [] + [step] == [step] && [step][1..] == [];
    } else {
      assert (steps + [step])[0] == steps[0] && (steps + [step])[1..] == steps[1..] + [step];
      AcceptedSnoc(steps[1..], step);
    }
  }

  /** A direct write that finds blocks of another client dirty overtakes them. */
  ghost predicate InOrder<B>(s: State<B>, step: Step<B>)
  {
    step.DirectWrite? ==> s.wr == [] || step.x == [] || (step.start == s.wrstart && step.x == s.wr)
  }

  lemma StepConservesExactlyWhen<B>(s: State<B>, step: Step<B>, wrmax: nat, rhmax: nat)
    requires WellFormed(s, wrmax, rhmax) && Enabled(s, step, wrmax) && !step.LoseRun?
    ensures var s' := Next(s, step, wrmax, rhmax);
            && (Pairs(s.wrstart, s.wr) + Accepts(step) == Hands(s, step, wrmax) + Pairs(s'.wrstart, s'.wr)
                <==> InOrder(s, step))
            && multiset(Pairs(s.wrstart, s.wr)) + multiset(Accepts(step))
               == multiset(Hands(s, step, wrmax)) + multiset(Pairs(s'.wrstart, s'.wr))
  {
    var s' := Next(s, step, wrmax, rhmax);
    match step
    case DirectWrite(start, x) => PairsCommuteExactlyWhen(s.wrstart, s.wr, start, x);
    case BufferWrite(start, x) =>
      SameBlocks(Pairs(s.wrstart, s.wr), Accepts(step), Hands(s, step, wrmax), Pairs(s'.wrstart, s'.wr));
    case FlushRun =>
    case Invalidate(start, n) => SurvivorsUnchanged(s, start, n);
    case ClearWindow(start, n) =>
    case Reload(first) =>
    case DropWindow =>
  }

  lemma SameBlocks<T>(a: seq<T>, b: seq<T>, c: seq<T>, d: seq<T>)
    requires a + b == c + d
    ensures multiset(a) + multiset(b) == multiset(c) + multiset(d)
  {
    assert multiset(a + b) == multiset(c + d);
  }

  lemma PairsCommuteExactlyWhen<B>(start1: int, x1: seq<B>, start2: int, x2: seq<B>)
    ensures Pairs(start1, x1) + Pairs(start2, x2) == Pairs(start2, x2) + Pairs(start1, x1)
            <==> x1 == [] || x2 == [] || (start1 == start2 && x1 == x2)
  {
    var p1: seq<(int, B)>, p2: seq<(int, B)> := Pairs(start1, x1), Pairs(start2, x2);
    var p12: seq<(int, B)>, p21: seq<(int, B)> := p1 + p2, p2 + p1;
    if x1 != [] && x2 != [] {
      if |x1| < |x2| {
        assert p12[|x1|].0 == start2 && p21[|x1|].0 == start2 + |x1|;
      } else if |x2| < |x1| {
        assert p12[|x2|].0 == start1 + |x2| && p21[|x2|].0 == start1;
      } else if p1 + p2 == p2 + p1 {
        forall i | 0 <= i < |x1| ensures x1[i] == x2[i] && start1 == start2 {
          assert (p1 + p2)[i] == p1[i] && (p2 + p1)[i] == p2[i];
        }
        assert x1[0] == x2[0];
      }
    }
  }

  ghost predicate InOrderThroughout<B>(s: State<B>, steps: seq<Step<B>>, wrmax: nat, rhmax: nat)
    requires Run(s, steps, wrmax, rhmax)
    decreases |steps|
  {
    steps != [] ==>
      InOrder(s, steps[0]) && InOrderThroughout(Next(s, steps[0], wrmax, rhmax), steps[1..], wrmax, rhmax)
  }

  lemma {:induction false} OneClientInOrder<B>(s: State<B>, steps: seq<Step<B>>, wrmax: nat, rhmax: nat)
    requires Run(s, steps, wrmax, rhmax) && OneClient(s, steps, wrmax, rhmax)
    ensures InOrderThroughout(s, steps, wrmax, rhmax)
    decreases |steps|
  {
    hide Next;
    if steps != [] {
      OneClientInOrder(Next(s, steps[0], wrmax, rhmax), steps[1..], wrmax, rhmax);
    }
  }

  /** For any number of clients, what was written is what the media was handed and the dirty run: no block is
      lost or repeated. */
  lemma {:induction false} ConservationOfBlocks<B>(s: State<B>, steps: seq<Step<B>>, wrmax: nat, rhmax: nat)
    requires WellFormed(s, wrmax, rhmax) && Run(s, steps, wrmax, rhmax) && NoLoss(steps)
    ensures var e := End(s, steps, wrmax, rhmax);
            multiset(Pairs(s.wrstart, s.wr)) + multiset(Accepted(steps))
            == multiset(Handed(s, steps, wrmax, rhmax)) + multiset(Pairs(e.wrstart, e.wr))
    decreases |steps|
  {
    hide Pairs, Accepts, Hands, Next, InOrder;
    if steps != [] {
      var step, rest := steps[0], steps[1..];
      var s1 := Next(s, step, wrmax, rhmax);
      var e, handed := End(s1, rest, wrmax, rhmax), Handed(s1, rest, wrmax, rhmax);
      StepKeepsShape(s, step, wrmax, rhmax);
      StepConservesExactlyWhen(s, step, wrmax, rhmax);
      ConservationOfBlocks(s1, rest, wrmax, rhmax);
      assert multiset(Accepts(step) + Accepted(rest)) == multiset(Accepts(step)) + multiset(Accepted(rest));
      assert multiset(Hands(s, step, wrmax) + handed) == multiset(Hands(s, step, wrmax)) + multiset(handed);
      RegroupBlocks(multiset(Pairs(s.wrstart, s.wr)), multiset(Accepts(step)), multiset(Accepted(rest)),
                    multiset(Hands(s, step, wrmax)), multiset(Pairs(s1.wrstart, s1.wr)), multiset(handed),
                    multiset(Pairs(e.wrstart, e.wr)));
    }
  }

  lemma RegroupBlocks<T>(run: multiset<T>, a: multiset<T>, rest: multiset<T>, h: multiset<T>, run1: multiset<T>,
                         hrest: multiset<T>, end: multiset<T>)
    requires run + a == h + run1
    requires run1 + rest == hrest + end
    ensures run + (a + rest) == (h + hrest) + end
  {
    assert run + (a + rest) == (run + a) + rest;
    assert (h + run1) + rest == h + (run1 + rest);
    assert h + (hrest + end) == h + hrest + end;
  }

  /** When no write overtakes another, also in the order of the writes; always so with one client. */
  lemma {:induction false} Conservation<B>(s: State<B>, steps: seq<Step<B>>, wrmax: nat, rhmax: nat)
    requires WellFormed(s, wrmax, rhmax) && Run(s, steps, wrmax, rhmax) && NoLoss(steps)
    requires InOrderThroughout(s, steps, wrmax, rhmax)
    ensures var e := End(s, steps, wrmax, rhmax);
            Pairs(s.wrstart, s.wr) + Accepted(steps) == Handed(s, steps, wrmax, rhmax) + Pairs(e.wrstart, e.wr)
    decreases |steps|
  {
    hide Pairs, Accepts, Hands, Next, InOrder;
    if steps == [] {
      assert Pairs(s.wrstart, s.wr) + [] == [] + Pairs(s.wrstart, s.wr);
    } else {
      var step, rest := steps[0], steps[1..];
      var s1 := Next(s, step, wrmax, rhmax);
      var e := End(s1, rest, wrmax, rhmax);
      StepKeepsShape(s, step, wrmax, rhmax);
      StepConservesExactlyWhen(s, step, wrmax, rhmax);
      Conservation(s1, rest, wrmax, rhmax);
      Regroup(Pairs(s.wrstart, s.wr), Accepts(step), Accepted(rest), Hands(s, step, wrmax),
              Pairs(s1.wrstart, s1.wr), Handed(s1, rest, wrmax, rhmax), Pairs(e.wrstart, e.wr));
    }
  }

  lemma Regroup<T>(run: seq<T>, a: seq<T>, rest: seq<T>, h: seq<T>, run1: seq<T>, hrest: seq<T>, end: seq<T>)
    requires run + a == h + run1
    requires run1 + rest == hrest + end
    ensures run + (a + rest) == h + hrest + end
  {
    assert run + (a + rest) == (run + a) + rest;
    assert (h + run1) + rest == h + (run1 + rest);
    assert h + (hrest + end) == h + hrest + end;
  }
}
