/** The block driver below the buffer: its two callbacks transfer every block asked for, or fail. */
module BlockDevice {
  import opened RwSpec

  class Device<B> {
    var blocks: seq<B>
    const reliable: bool  // whether no transfer inside the media fails

    constructor (blocks: seq<B>, reliable: bool)
      ensures this.blocks == blocks && this.reliable == reliable
    {
      this.blocks, this.reliable := blocks, reliable;
    }

    /** The wrflush callback. */
    method Write(start: int, x: seq<B>) returns (ret: int)
      modifies this
      ensures |blocks| == old(|blocks|)
      ensures ret >= 0 ==> ret == |x| && OnMedia(old(blocks), start, x) && blocks == Overlay(old(blocks), start, x)
      ensures ret < 0 ==> blocks == old(blocks)
      ensures reliable && OnMedia(old(blocks), start, x) ==> ret >= 0
    {
      ret := -1;
      if 0 <= start && start + |x| <= |blocks| {
        var transfer := *;
        if transfer || reliable {
          blocks := Overlay(blocks, start, x);
          ret := |x|;
        }
      }
    }

    /** The rhreload callback, into buffer[at..at + n]. */
    method Read(buffer: array<B>, at: nat, start: int, n: nat) returns (ret: int)
      requires at + n <= buffer.Length
      modifies buffer
      ensures forall i | 0 <= i < buffer.Length && !(at <= i < at + n) :: buffer[i] == old(buffer[i])
      ensures ret >= 0 ==>
                && ret == n && 0 <= start && start + n <= |blocks|
                && buffer[at..at + n] == blocks[start..start + n]
      ensures reliable && 0 <= start && start + n <= |blocks| ==> ret >= 0
    {
      ret := -1;
      if 0 <= start && start + n <= |blocks| {
        var transfer := *;
        if transfer || reliable {
          forall i | 0 <= i < n { buffer[at + i] := blocks[start + i]; }
          ret := n;
        }
      }
    }
  }
}

/** drivers/rwbuffer.c: the buffer object.  Each method appends to history the sections it runs; the
    theorems of RwRuns then speak about every sequence of calls. */
module RwBuffer {
  import opened RwSpec
  import opened RwRuns
  import opened RwQuiet
  import opened BlockDevice
  import opened Memory

  const EIO := 5
  const ESPIPE := 29

  // -------------------------------------------------------------------------
  // What a client asks of a plain array of blocks, and what it may answer

  datatype Op<B> = ReadOp(start: nat, n: nat) | WriteOp(at: nat, x: seq<B>) | FlushOp

  datatype Reply<B> = Data(blocks: seq<B>) | Done | Failed

  /** out holds blocks start .. start + |out| of the image. */
  ghost predicate Reads<B>(image: map<int, B>, start: int, out: seq<B>)
  {
    forall b | InRun(b, start, out) :: b in image && out[b - start] == image[b]
  }

  ghost predicate Answers<B>(m: map<int, B>, op: Op<B>, reply: Reply<B>)
  {
    match op
    case ReadOp(start, n) => reply.Failed? || (reply.Data? && |reply.blocks| == n && Reads(m, start, reply.blocks))
    case WriteOp(_, _) => reply.Failed? || reply.Done?
    case FlushOp => reply.Done?
  }

  /** A write that succeeds updates the array; nothing else does. */
  function After<B>(m: map<int, B>, op: Op<B>, reply: Reply<B>): map<int, B>
  {
    if op.WriteOp? && reply.Done? then m + RunMap(op.at, op.x) else m
  }

  function AfterAll<B>(m: map<int, B>, ops: seq<Op<B>>, replies: seq<Reply<B>>): map<int, B>
    requires |ops| == |replies|
  {
    if ops == [] then m
    else
      var k := |ops| - 1;
      After(AfterAll(m, ops[..k], replies[..k]), ops[k], replies[k])
  }

  /** Every reply is one that the plain array m, written so far, can give. */
  ghost predicate PlainReplies<B>(m: map<int, B>, ops: seq<Op<B>>, replies: seq<Reply<B>>)
    requires |ops| == |replies|
  {
    forall k | 0 <= k < |ops| :: Answers(AfterAll(m, ops[..k], replies[..k]), ops[k], replies[k])
  }

  /** Reads and writes of blocks that the media has. */
  predicate OpInRange<B>(op: Op<B>, size: nat)
  {
    match op
    case ReadOp(start, n) => start + n <= size
    case WriteOp(at, x) => at + |x| <= size
    case FlushOp => true
  }

  predicate AllInRange<B>(ops: seq<Op<B>>, size: nat)
  {
    forall k | 0 <= k < |ops| :: OpInRange(ops[k], size)
  }

  predicate NoneFailed<B>(replies: seq<Reply<B>>)
  {
    forall k | 0 <= k < |replies| :: !replies[k].Failed?
  }

  /** The state after a call that nothing disturbs. */
  function OpState<B>(s: State<B>, op: Op<B>, wrmax: nat, rhmax: nat): (t: State<B>)
    requires Ready(s, wrmax) && OpInRange(op, |s.dev|)
    ensures Ready(t, wrmax) && |t.dev| == |s.dev|
  {
    match op
    case ReadOp(start, n) => AfterRead(s, start, n, wrmax, rhmax)
    case WriteOp(at, x) =>
      AfterWriteReady(s, at, x, wrmax, rhmax);
      AfterWrite(s, at, x, wrmax, rhmax)
    case FlushOp => FlushedIfDirty(s)
  }

  /** If that call flushes the dirty run, the window agrees with it. */
  ghost predicate OpAgrees<B>(s: State<B>, op: Op<B>, wrmax: nat, rhmax: nat)
  {
    match op
    case ReadOp(_, _) => true
    case WriteOp(at, x) => WriteAgrees(Cleared(s, at, |x|, rhmax), at, |x|, wrmax)
    case FlushOp => |s.wr| > 0 ==> OverlapAgrees(s)
  }

  function CallsState<B>(s: State<B>, ops: seq<Op<B>>, wrmax: nat, rhmax: nat): (t: State<B>)
    requires Ready(s, wrmax) && AllInRange(ops, |s.dev|)
    ensures Ready(t, wrmax) && |t.dev| == |s.dev|
  {
    if ops == [] then s
    else OpState(CallsState(s, ops[..|ops| - 1], wrmax, rhmax), ops[|ops| - 1], wrmax, rhmax)
  }

  /** Every flush that these calls make themselves finds the two buffers in agreement. */
  ghost predicate CallsAgree<B>(s: State<B>, ops: seq<Op<B>>, wrmax: nat, rhmax: nat)
    requires Ready(s, wrmax) && AllInRange(ops, |s.dev|)
  {
    forall k | 0 <= k < |ops| :: OpAgrees(CallsState(s, ops[..k], wrmax, rhmax), ops[k], wrmax, rhmax)
  }

  lemma CallsOneMore<B>(s: State<B>, ops: seq<Op<B>>, i: nat, wrmax: nat, rhmax: nat)
    requires Ready(s, wrmax) && AllInRange(ops, |s.dev|) && i < |ops|
    ensures CallsState(s, ops[..i + 1], wrmax, rhmax) ==
            OpState(CallsState(s, ops[..i], wrmax, rhmax), ops[i], wrmax, rhmax)
    ensures CallsAgree(s, ops[..i + 1], wrmax, rhmax) <==>
            && CallsAgree(s, ops[..i], wrmax, rhmax)
            && OpAgrees(CallsState(s, ops[..i], wrmax, rhmax), ops[i], wrmax, rhmax)
  {
    hide OpState, OpAgrees, OpInRange, Ready;
    var upto := ops[..i + 1];
    assert upto[..i] == ops[..i] && upto[i] == ops[i];
    forall k | 0 <= k <= i ensures upto[..k] == ops[..k] && (k < i ==> ops[..i][..k] == ops[..k]) {}
  }

  /** Whether a client wrote since it last flushed; dirty says so at the start. */
  predicate Unflushed<B>(ops: seq<Op<B>>, dirty: bool)
  {
    if ops == [] then dirty
    else
      var k := |ops| - 1;
      ops[k].WriteOp? || (ops[k].ReadOp? && Unflushed(ops[..k], dirty))
  }

  /** The client flushes what it wrote before it reads. */
  predicate FlushesFirst<B>(ops: seq<Op<B>>, dirty: bool)
  {
    forall k | 0 <= k < |ops| && ops[k].ReadOp? :: !Unflushed(ops[..k], dirty)
  }

  lemma UnflushedOneMore<B>(ops: seq<Op<B>>, i: nat, dirty: bool)
    requires i < |ops|
    ensures Unflushed(ops[..i + 1], dirty) <==> ops[i].WriteOp? || (ops[i].ReadOp? && Unflushed(ops[..i], dirty))
  {
    assert ops[..i + 1][..i] == ops[..i];
  }

  lemma NoCalls<B>(m: map<int, B>, ops: seq<Op<B>>, dirty: bool)
    ensures Unflushed(ops[..0], dirty) == dirty
    ensures PlainReplies(m, ops[..0], []) && AfterAll(m, ops[..0], []) == m && NoneFailed<B>([])
  {
  }

  lemma AfterOneMore<B>(m: map<int, B>, ops: seq<Op<B>>, replies: seq<Reply<B>>, op: Op<B>, reply: Reply<B>)
    requires |ops| == |replies|
    ensures AfterAll(m, ops + [op], replies + [reply]) == After(AfterAll(m, ops, replies), op, reply)
  {
    hide After;
    assert (ops + [op])[..|ops|] == ops && (replies + [reply])[..|ops|] == replies;
  }

  lemma PlainOneMore<B>(m: map<int, B>, ops: seq<Op<B>>, replies: seq<Reply<B>>, op: Op<B>, reply: Reply<B>)
    requires |ops| == |replies|
    requires PlainReplies(m, ops, replies) && Answers(AfterAll(m, ops, replies), op, reply)
    ensures PlainReplies(m, ops + [op], replies + [reply])
  {
    hide AfterAll, Answers;
    var ops', replies' := ops + [op], replies + [reply];
    forall k | 0 <= k < |ops'| ensures Answers(AfterAll(m, ops'[..k], replies'[..k]), ops'[k], replies'[k]) {
      assert ops'[..k] == ops[..k] && replies'[..k] == replies[..k];
      if k == |ops| {
        assert ops[..k] == ops && replies[..k] == replies;
      }
    }
  }

  lemma OneMoreSucceeds<B>(ops: seq<Op<B>>, i: nat, replies: seq<Reply<B>>, reply: Reply<B>, size: nat)
    requires i < |ops|
    ensures AllInRange(ops, size) ==> OpInRange(ops[i], size)
    ensures NoneFailed(replies) && !reply.Failed? ==> NoneFailed(replies + [reply])
  {
    hide OpInRange;
  }

  class Buffer<B(0)> {
    const dev: Device<B>
    const wrmaxblocks: nat
    const rhmaxblocks: nat
    const wrbuffer: array<B>
    const rhbuffer: array<B>
    var wrnblocks: nat
    var wrblockstart: int
    var wrexpectedblock: int
    var rhnblocks: nat
    var rhblockstart: int
    ghost const initial: State<B>
    ghost var history: seq<Step<B>>
    ghost var timeouts: nat  // how often rwb_wrtimeout ran

    ghost predicate Shape()
      reads this
    {
      && wrbuffer.Length == wrmaxblocks && rhbuffer.Length == rhmaxblocks && wrbuffer != rhbuffer
      && wrnblocks <= wrmaxblocks && rhnblocks <= rhmaxblocks
    }

    /** The fields as a value. */
    ghost function Now(): State<B>
      requires Shape()
      reads this, dev, wrbuffer, rhbuffer
    {
      State(dev.blocks, wrblockstart, wrbuffer[..wrnblocks], wrexpectedblock, rhblockstart, rhbuffer[..rhnblocks])
    }

    /** The state that rwb_initialize left. */
    ghost predicate Origin()
    {
      WellFormed(initial, wrmaxblocks, rhmaxblocks) && WindowOk(initial) && initial.wr == []
    }

    ghost predicate Valid()
      reads this, dev, wrbuffer, rhbuffer
    {
      && Shape() && Origin()
      && WellFormed(Now(), wrmaxblocks, rhmaxblocks)
      && Run(initial, history, wrmaxblocks, rhmaxblocks) && OneClient(initial, history, wrmaxblocks, rhmaxblocks)
      && End(initial, history, wrmaxblocks, rhmaxblocks) == Now()
    }

    /** So far no dirty run was dropped and every flush found the two buffers in agreement. */
    ghost predicate Good()
      requires Valid()
      reads this, dev, wrbuffer, rhbuffer
    {
      NoLoss(history) && AgreeAtFlushes(initial, history, wrmaxblocks, rhmaxblocks)
    }

    /** The dirty run lies on the media. */
    ghost predicate InRange()
      reads this, dev
    {
      wrnblocks > 0 ==> 0 <= wrblockstart && wrblockstart + wrnblocks <= |dev.blocks|
    }

    /** No callback can fail for what is dirty, and none has lost any of it. */
    ghost predicate Sure()
      reads this, dev
    {
      dev.reliable && InRange() && NoLoss(history)
    }

    /** Nothing was lost, nothing can fail, and no dirty block is in the window. */
    ghost predicate Orderly()
      requires Valid()
      reads this, dev, wrbuffer, rhbuffer
    {
      Sure() && Good() && Disjoint(Now())
    }

    /** rwb_initialize */
    constructor (dev: Device<B>, wrmaxblocks: nat, rhmaxblocks: nat)
      ensures Valid() && Good() && history == [] && (dev.reliable ==> Sure() && Orderly())
      ensures this.dev == dev && this.wrmaxblocks == wrmaxblocks && this.rhmaxblocks == rhmaxblocks
      ensures Now() == State(dev.blocks, -1, [], -1, -1, [])
      ensures fresh(wrbuffer) && fresh(rhbuffer)
    {
      this.dev, this.wrmaxblocks, this.rhmaxblocks := dev, wrmaxblocks, rhmaxblocks;
      wrbuffer := new B[wrmaxblocks];
      rhbuffer := new B[rhmaxblocks];
      wrnblocks, wrblockstart, wrexpectedblock := 0, -1, -1;
      rhnblocks, rhblockstart := 0, -1;
      initial := State(dev.blocks, -1, [], -1, -1, []);
      history, timeouts := [], 0;
      new;
      assert Now() == initial;
    }

    /** In a good run the window is coherent. */
    lemma GoodIsCoherent()
      requires Valid() && Good()
      ensures WindowOk(Now())
    {
      CoherentExactlyWhenFlushesAgree(initial, history, wrmaxblocks, rhmaxblocks);
      CoherentAtEnd(initial, history, wrmaxblocks, rhmaxblocks);
    }

    /** Record a section that has just run from state before. */
    ghost method Record(before: State<B>, step: Step<B>)
      requires Shape() && Origin()
      requires WellFormed(before, wrmaxblocks, rhmaxblocks)
      requires Run(initial, history, wrmaxblocks, rhmaxblocks) && OneClient(initial, history, wrmaxblocks, rhmaxblocks)
      requires End(initial, history, wrmaxblocks, rhmaxblocks) == before
      requires Enabled(before, step, wrmaxblocks) && Alone(before, step)
      requires Next(before, step, wrmaxblocks, rhmaxblocks) == Now()
      modifies this`history
      ensures Valid() && history == old(history) + [step]
      ensures Good() <==>
              && NoLoss(old(history)) && AgreeAtFlushes(initial, old(history), wrmaxblocks, rhmaxblocks)
              && !step.LoseRun? && (Flushes(before, step, wrmaxblocks) ==> OverlapAgrees(before))
      ensures Accepted(history) == Accepted(old(history)) + Accepts(step)
      ensures NoLoss(history) <==> NoLoss(old(history)) && !step.LoseRun?
    {
      AcceptedSnoc(history, step);
      RunSnoc(initial, history, step, wrmaxblocks, rhmaxblocks);
      StepKeepsShape(before, step, wrmaxblocks, rhmaxblocks);
      history := history + [step];
    }

    /** At most the dirty run went to the media, or was dropped, since the old state. */
    twostate predicate AtMostFlushed()
      requires old(Valid()) && Valid()
      reads this, dev, wrbuffer, rhbuffer
    {
      && rhnblocks == old(rhnblocks) && rhblockstart == old(rhblockstart) && rhbuffer[..] == old(rhbuffer[..])
      && |dev.blocks| == old(|dev.blocks|)
      && (Now() == old(Now()) || wrnblocks == 0)
      && (forall b | 0 <= b < |dev.blocks| && !InRun(b, old(wrblockstart), old(Now()).wr) ::
            dev.blocks[b] == old(dev.blocks[b]))
      && (Good() ==> old(Good()) && Image(Now()) == old(Image(Now())))
      && Accepted(history) == Accepted(old(history))
      && (old(Sure()) ==> Sure())
    }

    /** rwb_wrflush, under wrsem; also rwb_wrtimeout and rwb_flush, which only take the lock around it */
    method WrFlush()
      requires Valid()
      modifies this, dev
      ensures Valid() && wrnblocks == 0 && AtMostFlushed()
      ensures history == old(history) || history == old(history) + [FlushRun] || history == old(history) + [LoseRun]
      ensures history != old(history) + [LoseRun] ==> Image(Now()) == old(Image(Now()))
      ensures dev.reliable && old(InRange()) ==> history != old(history) + [LoseRun]
      ensures timeouts == old(timeouts)
      ensures old(wrnblocks) == 0 ==> Now() == old(Now()) && (Good() <==> old(Good()))
      ensures old(wrnblocks) > 0 && dev.reliable && old(InRange()) ==>
                && Now() == Flushed(old(Now()))
                && (Good() <==> old(Good()) && OverlapAgrees(old(Now())))
    {
      hide RunMap, Origin, Run, End, OneClient, NoLoss, AgreeAtFlushes, Accepted, OverlapAgrees;
      if wrnblocks > 0 {
        ghost var before := Now();
        var ret := dev.Write(wrblockstart, wrbuffer[..wrnblocks]);
        ghost var step := if ret >= 0 then FlushRun else LoseRun;
        wrnblocks, wrblockstart, wrexpectedblock := 0, -1, -1;
        assert wrbuffer[..0] == [];
        Record(before, step);
        assert history[|history| - 1] == step;
        if ret >= 0 { FlushKeepsImage(before); }
      }
    }

    /** A point where wrsem is free: the worker thread may run rwb_wrtimeout. */
    method MayTimeOut()
      requires Valid()
      modifies this, dev
      ensures Valid() && AtMostFlushed()
      ensures history == old(history) || history == old(history) + [FlushRun] || history == old(history) + [LoseRun]
      ensures timeouts >= old(timeouts)
      ensures timeouts == old(timeouts) ==> Now() == old(Now()) && (Good() <==> old(Good()))
      ensures old(wrnblocks) == 0 ==> Now() == old(Now()) && (Good() <==> old(Good()))
      ensures old(Orderly()) ==> Orderly()
    {
      if * {
        timeouts := timeouts + 1;
        WrFlush();
      }
    }

    /** rwb_writebuffer, under wrsem */
    method WriteBuffer(start: int, x: seq<B>) returns (ret: int)
      requires Valid() && 0 <= start && |x| <= wrmaxblocks && ClearOf(Now(), start, x)
      modifies this, dev, wrbuffer
      ensures Valid()
      ensures ret >= 0 ==>
                && ret == |x| && history == old(history) + [BufferWrite(start, x)]
                && (MustFlush(old(Now()), start, |x|, wrmaxblocks) ==>
                      OnMedia(old(dev.blocks), old(wrblockstart), old(Now()).wr))
                && Now() == Buffered(old(Now()), start, x, wrmaxblocks)
                && Accepted(history) == Accepted(old(history)) + Pairs(start, x)
                && (Good() <==>
                    && old(Good())
                    && (MustFlush(old(Now()), start, |x|, wrmaxblocks) ==> OverlapAgrees(old(Now()))))
                && Image(Now()) == old(Image(Now())) + RunMap(start, x)
      ensures ret < 0 ==> Now() == old(Now()) && history == old(history) && (Good() <==> old(Good()))
      ensures |dev.blocks| == old(|dev.blocks|) && timeouts == old(timeouts)
      ensures dev.reliable && old(InRange()) ==> ret >= 0
      ensures old(Sure()) && start + |x| <= |dev.blocks| ==> Sure()
    {
      hide Image, RunMap, Run, End, OneClient, Origin, OverlapAgrees, AgreeAtFlushes, NoLoss, Accepted, Pairs;
      ghost var before := Now();
      ret := FlushFirst(start, |x|);
      if ret < 0 {
        return;
      }
      AppendBlocks(start, x);
      ret := |x|;
      Record(before, BufferWrite(start, x));
      BufferedWrites(before, start, x, wrmaxblocks);
    }

    /** The first half of rwb_writebuffer: flush unless the blocks can join the run. */
    method FlushFirst(start: int, n: nat) returns (ret: int)
      requires Shape() && n <= wrmaxblocks
      modifies this`wrnblocks, this`wrblockstart, this`wrexpectedblock, dev
      ensures Shape() && |dev.blocks| == old(|dev.blocks|)
      ensures ret >= 0 ==>
                var must := MustFlush(old(Now()), start, n, wrmaxblocks);
                && (must ==> OnMedia(old(dev.blocks), old(wrblockstart), old(Now()).wr))
                && Now() == if must then Flushed(old(Now())) else old(Now())
      ensures ret < 0 ==> Now() == old(Now())
      ensures dev.reliable && old(InRange()) ==> ret >= 0
    {
      ret := 0;
      if (start != wrexpectedblock && wrnblocks != 0) || wrnblocks + n > wrmaxblocks {
        ret := dev.Write(wrblockstart, wrbuffer[..wrnblocks]);
        if ret < 0 {
          return;
        }
        wrnblocks, wrblockstart, wrexpectedblock := 0, -1, -1;
        assert wrbuffer[..0] == [];
      }
    }

    /** The second half: add the blocks to the run. */
    method AppendBlocks(start: int, x: seq<B>)
      requires Shape() && wrnblocks + |x| <= wrmaxblocks
      modifies this`wrnblocks, this`wrblockstart, this`wrexpectedblock, wrbuffer
      ensures Shape() && Now() == Appended(old(Now()), start, x)
    {
      ghost var wr := wrbuffer[..wrnblocks];
      if wrnblocks == 0 {
        wrblockstart := start;
      }
      Memcpy(wrbuffer, wrnblocks, x);
      wrnblocks := wrnblocks + |x|;
      wrexpectedblock := wrblockstart + wrnblocks;
      assert wrbuffer[..wrnblocks] == wr + x;
    }

    /** The first section of rwb_write, under rhsem */
    method ClearOverlap(start: int, n: nat)
      requires Valid()
      modifies this
      ensures Valid() && (Good() <==> old(Good())) && Image(Now()) == old(Image(Now()))
      ensures Now() == old(WindowClearOf(Now(), start, n)) && history == old(history) + [ClearWindow(start, n)]
      ensures Accepted(history) == Accepted(old(history)) && (old(Sure()) ==> Sure()) && timeouts == old(timeouts)
      ensures forall b :: !(InRun(b, rhblockstart, rhbuffer[..rhnblocks]) && Within(b, start, n))
    {
      ghost var before := Now();
      if Overlap(rhblockstart, rhnblocks, start, n) {
        rhnblocks, rhblockstart := 0, -1;
        assert rhbuffer[..0] == [];
      }
      Record(before, ClearWindow(start, n));
      ImageIgnoresWindow(before, Now());
    }

    /** If a write of n blocks flushes the dirty run, the window agrees with the run. */
    ghost predicate OwnFlushAgrees(start: int, n: nat)
      requires Valid()
      reads this, dev, wrbuffer, rhbuffer
    {
      WriteAgrees(Now(), start, n, wrmaxblocks)
    }

    /** A write of n blocks does not drop the dirty run: its flush keeps the run when it fails, or cannot fail. */
    ghost predicate OwnFlushKeepsRun(n: nat)
      reads this, dev
    {
      wrmaxblocks == 0 || n <= wrmaxblocks || wrnblocks == 0 || (dev.reliable && InRange())
    }

    /** The same, once the window was cleared of the blocks. */
    ghost predicate ClearedFlushAgrees(start: int, n: nat)
      requires Valid()
      reads this, dev, wrbuffer, rhbuffer
    {
      WriteAgrees(Cleared(Now(), start, n, rhmaxblocks), start, n, wrmaxblocks)
    }

    /** rwb_write */
    method Write(start: int, x: seq<B>) returns (ret: int)
      requires Valid() && 0 <= start
      modifies this, dev, wrbuffer
      ensures Valid()
      ensures ret >= 0 ==> ret == |x|
      ensures Accepted(history) == Accepted(old(history)) + if ret >= 0 then Pairs(start, x) else []
      ensures Good() ==> old(Good())
      ensures Good() ==> Image(Now()) == if ret >= 0 then old(Image(Now())) + RunMap(start, x) else old(Image(Now()))
      ensures |dev.blocks| == old(|dev.blocks|)
      ensures old(Sure()) && start + |x| <= |dev.blocks| ==> ret >= 0 && Sure()
      ensures timeouts >= old(timeouts)
      ensures timeouts == old(timeouts) && old(Good() && ClearedFlushAgrees(start, |x|) && OwnFlushKeepsRun(|x|)) ==>
                Good()
      ensures Quiet(old(timeouts), start, |x|) && old(InRange()) ==>
                && Now() == AfterWrite(old(Now()), start, x, wrmaxblocks, rhmaxblocks)
                && (Good() <==> old(Good() && ClearedFlushAgrees(start, |x|)))
      ensures old(Orderly()) && start + |x| <= |dev.blocks| ==> Orderly()
    {
      hide Image, RunMap, Origin, Run, End, OneClient, NoLoss, Good, Accepted, Pairs, OverlapAgrees, WrittenOut;
      if rhmaxblocks > 0 {
        ClearOverlap(start, |x|);
      }
      assert ClearOf(Now(), start, x);
      MayTimeOut();
      assert ClearOf(Now(), start, x);
      ret := WriteOut(start, x);
    }

    /** The section of rwb_write under wrsem */
    method WriteOut(start: int, x: seq<B>) returns (ret: int)
      requires Valid() && 0 <= start && ClearOf(Now(), start, x)
      modifies this, dev, wrbuffer
      ensures Valid()
      ensures ret >= 0 ==> ret == |x|
      ensures Accepted(history) == Accepted(old(history)) + if ret >= 0 then Pairs(start, x) else []
      ensures Good() ==> old(Good())
      ensures Good() ==> Image(Now()) == if ret >= 0 then old(Image(Now())) + RunMap(start, x) else old(Image(Now()))
      ensures |dev.blocks| == old(|dev.blocks|) && timeouts == old(timeouts)
      ensures old(Sure()) && start + |x| <= |dev.blocks| ==> ret >= 0 && Sure()
      ensures old(Good() && OwnFlushAgrees(start, |x|) && OwnFlushKeepsRun(|x|)) ==> Good()
      ensures Quiet(old(timeouts), start, |x|) && old(InRange()) ==>
                && Now() == WrittenOut(old(Now()), start, x, wrmaxblocks)
                && (Good() <==> old(Good() && OwnFlushAgrees(start, |x|)))
      ensures old(Orderly()) && start + |x| <= |dev.blocks| ==> Orderly()
    {
      hide Image, RunMap, Origin, Run, End, OneClient, NoLoss, Good, Accepted, Pairs, OverlapAgrees, Overlay, Disjoint;
      ghost var before := Now();
      if Orderly() && start + |x| <= |dev.blocks| {
        WrittenOutDisjoint(before, start, x, wrmaxblocks);
      }
      if wrmaxblocks > 0 {
        if |x| > wrmaxblocks {
          WrFlush();
          ret := WriteThrough(start, x);
        } else {
          ret := WriteBuffer(start, x);
        }
      } else {
        ret := WriteThrough(start, x);
      }
    }

    /** wrflush of the caller's data, with nothing dirty */
    method WriteThrough(start: int, x: seq<B>) returns (ret: int)
      requires Valid() && wrnblocks == 0 && ClearOf(Now(), start, x)
      modifies this, dev
      ensures Valid()
      ensures ret >= 0 ==>
                && ret == |x| && history == old(history) + [DirectWrite(start, x)]
                && OnMedia(old(dev.blocks), start, x)
                && Accepted(history) == Accepted(old(history)) + Pairs(start, x)
                && Now() == Direct(old(Now()), start, x) && (Good() <==> old(Good()))
                && Image(Now()) == old(Image(Now())) + RunMap(start, x)
      ensures ret < 0 ==> Now() == old(Now()) && history == old(history) && (Good() <==> old(Good()))
      ensures |dev.blocks| == old(|dev.blocks|) && (old(Sure()) ==> Sure()) && timeouts == old(timeouts)
      ensures dev.reliable && 0 <= start && start + |x| <= |dev.blocks| ==> ret >= 0
    {
      ghost var before := Now();
      ret := dev.Write(start, x);
      if ret >= 0 {
        Record(before, DirectWrite(start, x));
        DirectWritesExactlyWhen(before, start, x);
      }
    }

    /** rwb_rhreload, under rhsem */
    method RhReload(start: int) returns (ret: int)
      requires Valid() && 0 <= start && rhmaxblocks > 0
      modifies this, rhbuffer
      ensures Valid() && (Good() <==> old(Good())) && Image(Now()) == old(Image(Now()))
      ensures wrnblocks == old(wrnblocks) && wrblockstart == old(wrblockstart)
      ensures wrexpectedblock == old(wrexpectedblock)
      ensures Accepted(history) == Accepted(old(history))
      ensures ret >= 0 ==>
                && history == old(history) + [Reload(start)] && start < |old(dev.blocks)|
                && Now() == Reloaded(old(Now()), start, rhmaxblocks) && Within(start, rhblockstart, rhnblocks)
      ensures ret == -ESPIPE <==> start >= |dev.blocks|
      ensures dev.reliable && start < |dev.blocks| ==> ret >= 0
      ensures (old(Sure()) ==> Sure()) && timeouts == old(timeouts)
      ensures ret == -ESPIPE ==> history == old(history) && Now() == old(Now())
      ensures ret < 0 && ret != -ESPIPE ==> history == old(history) + [DropWindow] && rhnblocks == 0
    {
      hide Image, Run, End, OneClient, Origin, OverlapAgrees, AgreeAtFlushes, NoLoss, Accepted;
      if start >= |dev.blocks| {
        return -ESPIPE;
      }
      ghost var before := Now();
      var endblock := start + rhmaxblocks;
      if endblock > |dev.blocks| {
        endblock := |dev.blocks|;
      }
      var nblocks := endblock - start;
      rhnblocks, rhblockstart := 0, -1;
      ret := dev.Read(rhbuffer, 0, start, nblocks);
      if ret == nblocks {
        rhnblocks := nblocks;
        rhblockstart := start;
        assert Now() == Reloaded(before, start, rhmaxblocks);
        Record(before, Reload(start));
      } else {
        ret := -EIO;
        assert rhbuffer[..0] == [];
        Record(before, DropWindow);
      }
      ImageIgnoresWindow(before, Now());
    }

    /** rwb_bufferread, under rhsem, with every block in the window */
    method BufferRead(start: int, n: nat, rdbuffer: array<B>, at: nat)
      requires Shape() && at + n <= rdbuffer.Length && rdbuffer != rhbuffer
      requires rhblockstart <= start && start + n <= rhblockstart + rhnblocks
      modifies rdbuffer
      ensures rdbuffer[at..at + n] == rhbuffer[start - rhblockstart..start - rhblockstart + n]
      ensures rdbuffer[..at] == old(rdbuffer[..at]) && rdbuffer[at + n..] == old(rdbuffer[at + n..])
    {
      var blockoffset := start - rhblockstart;
      Memcpy(rdbuffer, at, rhbuffer[blockoffset..blockoffset + n]);
    }

    /** out holds blocks start .. start + |out| of the media, except where hidden is dirty. */
    static ghost predicate Delivered(blocks: seq<B>, hidden: State<B>, start: int, out: seq<B>)
    {
      forall b | InRun(b, start, out) && !InRun(b, hidden.wrstart, hidden.wr) ::
        InRun(b, 0, blocks) && out[b - start] == blocks[b]
    }

    /** In a good run, blocks of the window are blocks of the media. */
    lemma WindowDelivers(start: int, out: seq<B>)
      requires Valid() && Good() && rhblockstart <= start && start + |out| <= rhblockstart + rhnblocks
      requires out == rhbuffer[start - rhblockstart..start - rhblockstart + |out|]
      ensures Delivered(dev.blocks, Now(), start, out)
    {
      hide Good, Run, End, OneClient;
      GoodIsCoherent();
      forall b | InRun(b, start, out) && !InRun(b, wrblockstart, Now().wr)
        ensures InRun(b, 0, dev.blocks) && out[b - start] == dev.blocks[b]
      {
        assert InRun(b, rhblockstart, Now().rh);
      }
    }

    /** The part of the loop of rwb_read_ that serves from the window: how many blocks it copied. */
    method ServeFromWindow(startblock: int, remaining: nat, rdbuffer: array<B>, at: nat) returns (rdblocks: nat)
      requires Valid() && 0 <= startblock && at + remaining <= rdbuffer.Length
      requires rdbuffer != rhbuffer && rdbuffer != wrbuffer
      modifies rdbuffer
      ensures rdblocks == Served(Now(), startblock, remaining)
      ensures rdblocks > 0 ==>
                && startblock - rhblockstart + rdblocks <= rhnblocks
                && rdbuffer[at..at + rdblocks] ==
                   rhbuffer[startblock - rhblockstart..startblock - rhblockstart + rdblocks]
      ensures Good() ==> Delivered(dev.blocks, Now(), startblock, rdbuffer[at..at + rdblocks])
      ensures rdbuffer[..at] == old(rdbuffer[..at])
    {
      hide Good, Origin, Run, End, OneClient, WellFormed, Delivered;
      rdblocks := 0;
      DeliveredNothing(dev.blocks, Now(), startblock);
      assert rdbuffer[at..at] == [];
      if rhnblocks > 0 {
        var bufferend := rhblockstart + rhnblocks;
        if startblock >= rhblockstart && startblock < bufferend {
          rdblocks := bufferend - startblock;
          if rdblocks > remaining {
            rdblocks := remaining;
          }
          BufferRead(startblock, rdblocks, rdbuffer, at);
          if Good() {
            WindowDelivers(startblock, rdbuffer[at..at + rdblocks]);
          }
        }
      }
    }

    /** Since the state entry, at most its dirty run went to the media or was dropped. */
    ghost predicate Since(entry: State<B>)
      requires Valid()
      reads this, dev, wrbuffer, rhbuffer
    {
      && |dev.blocks| == |entry.dev|
      && (forall b | InRun(b, wrblockstart, Now().wr) :: InRun(b, entry.wrstart, entry.wr))
      && (forall b | 0 <= b < |dev.blocks| && !InRun(b, entry.wrstart, entry.wr) :: dev.blocks[b] == entry.dev[b])
      && (Good() ==> Image(Now()) == Image(entry))
    }

    ghost predicate RunUntouched(entry: State<B>)
      requires Valid()
      reads this, dev, wrbuffer, rhbuffer
    {
      && dev.blocks == entry.dev && wrnblocks == |entry.wr|
      && wrblockstart == entry.wrstart && wrexpectedblock == entry.wrexpected
    }

    /** Neither the media nor the dirty run changed since the old state. */
    twostate predicate RunKept()
      reads this, dev
    {
      && dev.blocks == old(dev.blocks) && wrnblocks == old(wrnblocks)
      && wrblockstart == old(wrblockstart) && wrexpectedblock == old(wrexpectedblock)
    }

    /** A point where wrsem may be free, seen from the state entry. */
    method MayTimeOutSince(ghost entry: State<B>, wrsemFree: bool)
      requires Valid() && Since(entry) && (!wrsemFree ==> RunUntouched(entry))
      modifies this, dev
      ensures Valid() && Since(entry) && (!wrsemFree ==> RunUntouched(entry))
      ensures rhnblocks == old(rhnblocks) && rhblockstart == old(rhblockstart) && |dev.blocks| == old(|dev.blocks|)
      ensures Accepted(history) == Accepted(old(history)) && (Good() ==> old(Good())) && (old(Sure()) ==> Sure())
      ensures timeouts >= old(timeouts) && (!wrsemFree ==> timeouts == old(timeouts))
      ensures timeouts == old(timeouts) ==> Now() == old(Now()) && (Good() <==> old(Good()))
      ensures old(wrnblocks) == 0 ==> wrnblocks == 0 && (Good() <==> old(Good()))
    {
      if wrsemFree {
        MayTimeOut();
      }
    }

    /** The state after loading n blocks from start on, when that goes well. */
    ghost function AfterLoad(start: int, n: nat): State<B>
      requires Valid()
      reads this, dev, wrbuffer, rhbuffer
    {
      if rhmaxblocks > 0 && 0 <= start && start + n <= |dev.blocks| then Loaded(Now(), start, n, rhmaxblocks) else Now()
    }

    lemma AfterLoadNothing(start: int)
      requires Valid()
      ensures AfterLoad(start, 0) == Now()
    {
    }

    /** No timeout came since the counter stood at t, and none of n blocks from start on can fail to load. */
    ghost predicate Quiet(t: nat, start: int, n: nat)
      reads this, dev
    {
      timeouts == t && dev.reliable && start + n <= |dev.blocks|
    }

    lemma DeliveredSince(entry: State<B>, start: int, out: seq<B>)
      requires Valid() && Since(entry) && Delivered(dev.blocks, Now(), start, out)
      ensures Delivered(entry.dev, entry, start, out)
    {
    }

    /** The end of the loop of rwb_read_: reload for what remains. */
    method ReloadFor(ghost entry: State<B>, startblock: int, wrsemFree: bool) returns (ret: int)
      requires Valid() && Since(entry) && 0 <= startblock && rhmaxblocks > 0 && (!wrsemFree ==> RunUntouched(entry))
      modifies this, dev, rhbuffer
      ensures Valid() && Since(entry) && (!wrsemFree ==> RunUntouched(entry))
      ensures Accepted(history) == Accepted(old(history)) && (Good() ==> old(Good())) && (old(Sure()) ==> Sure())
      ensures ret >= 0 ==> Within(startblock, rhblockstart, rhnblocks)
      ensures |dev.blocks| == old(|dev.blocks|)
      ensures dev.reliable && startblock < |dev.blocks| ==> ret >= 0
      ensures timeouts >= old(timeouts) && (!wrsemFree ==> timeouts == old(timeouts))
      ensures timeouts == old(timeouts) ==> (Good() <==> old(Good())) && RunKept()
      ensures old(wrnblocks) == 0 ==> wrnblocks == 0 && (Good() <==> old(Good()))
      ensures timeouts == old(timeouts) && ret >= 0 ==>
                startblock < |old(dev.blocks)| && Now() == Reloaded(old(Now()), startblock, rhmaxblocks)
    {
      hide Good, Origin, Run, End, OneClient, Accepted, Sure, Image, WellFormed, Reloaded;
      MayTimeOutSince(entry, wrsemFree);
      ret := RhReload(startblock);
    }

    /** One pass of the loop of rwb_read_: serve from the window, then reload for what remains. */
    method ReadPass(ghost entry: State<B>, startblock: int, remaining: nat, rdbuffer: array<B>, at: nat,
                    wrsemFree: bool)
      returns (ret: int, rdblocks: nat)
      requires Valid() && Since(entry) && 0 <= startblock && rhmaxblocks > 0 && (!wrsemFree ==> RunUntouched(entry))
      requires 0 < remaining && at + remaining <= rdbuffer.Length && rdbuffer != rhbuffer && rdbuffer != wrbuffer
      modifies this, dev, rhbuffer, rdbuffer
      ensures Valid() && Since(entry) && (!wrsemFree ==> RunUntouched(entry))
      ensures Accepted(history) == Accepted(old(history))
      ensures rdblocks <= remaining && |dev.blocks| == old(|dev.blocks|)
      ensures timeouts >= old(timeouts) && (!wrsemFree ==> timeouts == old(timeouts))
      ensures timeouts == old(timeouts) ==> (Good() <==> old(Good())) && RunKept()
      ensures old(wrnblocks) == 0 ==> wrnblocks == 0 && (Good() <==> old(Good()))
      ensures Quiet(old(timeouts), startblock, remaining) ==>
                AfterLoad(startblock + rdblocks, remaining - rdblocks) == old(AfterLoad(startblock, remaining))
      ensures Good() ==> old(Good()) && Delivered(entry.dev, entry, startblock, rdbuffer[at..at + rdblocks])
      ensures old(Within(startblock, rhblockstart, rhnblocks)) ==> rdblocks > 0
      ensures ret >= 0 && rdblocks == 0 ==> Within(startblock, rhblockstart, rhnblocks)
      ensures rdbuffer[..at] == old(rdbuffer[..at])
      ensures old(Sure()) ==> Sure()
      ensures dev.reliable && startblock + remaining <= |dev.blocks| ==> ret >= 0
    {
      hide Good, Origin, Run, End, OneClient, Accepted, Delivered, Sure, Image, WellFormed, Reloaded, Since;
      ret := 0;
      MayTimeOutSince(entry, wrsemFree);
      rdblocks := ServeFromWindow(startblock, remaining, rdbuffer, at);
      if Good() {
        DeliveredSince(entry, startblock, rdbuffer[at..at + rdblocks]);
      }
      if remaining - rdblocks > 0 {
        ret := ReloadFor(entry, startblock + rdblocks, wrsemFree);
      }
    }

    /** The loop of rwb_read_ */
    method ReadLoop(ghost entry: State<B>, start: int, n: nat, rdbuffer: array<B>, at: nat, wrsemFree: bool)
      returns (ret: int)
      requires Valid() && Since(entry) && (!wrsemFree ==> RunUntouched(entry)) && rhmaxblocks > 0
      requires 0 <= start && at + n <= rdbuffer.Length && rdbuffer != rhbuffer && rdbuffer != wrbuffer
      modifies this, dev, rhbuffer, rdbuffer
      ensures Valid() && Since(entry) && (!wrsemFree ==> RunUntouched(entry))
      ensures ret >= 0 ==> ret == n
      ensures Accepted(history) == Accepted(old(history))
      ensures Good() ==> old(Good())
      ensures ret >= 0 && Good() ==> Delivered(entry.dev, entry, start, rdbuffer[at..at + n])
      ensures rdbuffer[..at] == old(rdbuffer[..at])
      ensures timeouts >= old(timeouts) && (!wrsemFree ==> timeouts == old(timeouts))
      ensures timeouts == old(timeouts) ==> (Good() <==> old(Good())) && RunKept()
      ensures old(wrnblocks) == 0 ==> wrnblocks == 0 && (Good() <==> old(Good()))
      ensures Quiet(old(timeouts), start, n) ==> Now() == old(AfterLoad(start, n))
      ensures old(Sure()) ==> Sure()
      ensures dev.reliable && start + n <= |dev.blocks| ==> ret >= 0
    {
      hide Since, Valid, Good, Accepted, Delivered, Sure, AfterLoad;
      var startblock, remaining := start, n;
      DeliveredNothing(entry.dev, entry, start);
      assert rdbuffer[at..at] == [];
      while remaining > 0
        invariant 0 <= remaining <= n && startblock == start + n - remaining
        invariant Valid() && Since(entry) && (!wrsemFree ==> RunUntouched(entry))
        invariant Accepted(history) == Accepted(old(history))
        invariant Good() ==> old(Good()) && Delivered(entry.dev, entry, start, rdbuffer[at..at + n - remaining])
        invariant rdbuffer[..at] == old(rdbuffer[..at])
        invariant timeouts >= old(timeouts) && (!wrsemFree ==> timeouts == old(timeouts))
        invariant timeouts == old(timeouts) ==> (Good() <==> old(Good())) && RunKept()
        invariant old(wrnblocks) == 0 ==> wrnblocks == 0 && (Good() <==> old(Good()))
        invariant |dev.blocks| == old(|dev.blocks|)
        invariant Quiet(old(timeouts), start, n) ==> AfterLoad(startblock, remaining) == old(AfterLoad(start, n))
        invariant old(Sure()) ==> Sure()
        decreases remaining, if Within(startblock, rhblockstart, rhnblocks) then 0 else 1
      {
        var here, rdblocks := at + n - remaining, 0;
        ghost var was, done := rdbuffer[..], rdbuffer[at..here];
        ret, rdblocks := ReadPass(entry, startblock, remaining, rdbuffer, here, wrsemFree);
        if ret < 0 {
          return;
        }
        SliceExtends(was, rdbuffer[..], at, here, here + rdblocks);
        DeliveredConcat(entry.dev, entry, start, done, rdbuffer[here..here + rdblocks]);
        startblock := startblock + rdblocks;
        remaining := remaining - rdblocks;
      }
      AfterLoadNothing(startblock);
      ret := n;
    }

    /** rwb_read_; wrsem may be held by the caller, or free, so that timeouts come in between. */
    method ReadAhead(start: int, n: nat, rdbuffer: array<B>, at: nat, wrsemFree: bool) returns (ret: int)
      requires Valid() && 0 <= start && at + n <= rdbuffer.Length && rdbuffer != rhbuffer && rdbuffer != wrbuffer
      modifies this, dev, rhbuffer, rdbuffer
      ensures Valid()
      ensures ret >= 0 ==> ret == n
      ensures Since(old(Now())) && (!wrsemFree ==> RunUntouched(old(Now())))
      ensures Accepted(history) == Accepted(old(history))
      ensures Good() ==> old(Good())
      ensures ret >= 0 && Good() ==> Delivered(old(dev.blocks), old(Now()), start, rdbuffer[at..at + n])
      ensures rdbuffer[..at] == old(rdbuffer[..at])
      ensures |dev.blocks| == old(|dev.blocks|) && (old(Sure()) ==> Sure())
      ensures dev.reliable && start + n <= |dev.blocks| ==> ret >= 0
      ensures timeouts >= old(timeouts) && (!wrsemFree ==> timeouts == old(timeouts))
      ensures timeouts == old(timeouts) ==> (Good() <==> old(Good())) && RunKept()
      ensures old(wrnblocks) == 0 ==> wrnblocks == 0 && (Good() <==> old(Good()))
      ensures Quiet(old(timeouts), start, n) ==> Now() == old(AfterLoad(start, n))
    {
      hide Image, Good, Origin, Run, End, OneClient, NoLoss, Accepted;
      ghost var entry := Now();
      if rhmaxblocks > 0 {
        ret := ReadLoop(entry, start, n, rdbuffer, at, wrsemFree);
      } else {
        if wrsemFree {
          MayTimeOut();
        }
        ret := dev.Read(rdbuffer, at, start, n);
      }
    }

    static lemma DeliveredNothing(blocks: seq<B>, hidden: State<B>, start: int)
      ensures Delivered(blocks, hidden, start, [])
    {
    }

    static lemma DeliveredConcat(blocks: seq<B>, hidden: State<B>, start: int, out: seq<B>, more: seq<B>)
      ensures Delivered(blocks, hidden, start, out) && Delivered(blocks, hidden, start + |out|, more)
              ==> Delivered(blocks, hidden, start, out + more)
    {
      if Delivered(blocks, hidden, start, out) && Delivered(blocks, hidden, start + |out|, more) {
        forall b | InRun(b, start, out + more) && !InRun(b, hidden.wrstart, hidden.wr)
          ensures InRun(b, 0, blocks) && (out + more)[b - start] == blocks[b]
        {
          assert InRun(b, start, out) || InRun(b, start + |out|, more);
        }
      }
    }

    static lemma DeliveredReads(s: State<B>, start: int, out: seq<B>)
      requires Delivered(s.dev, s, start, out)
      requires forall b :: !(InRun(b, start, out) && InRun(b, s.wrstart, s.wr))
      ensures Reads(Image(s), start, out)
    {
    }

    static lemma ReadsConcat(image: map<int, B>, start: int, out: seq<B>, more: seq<B>)
      requires Reads(image, start, out) && Reads(image, start + |out|, more)
      ensures Reads(image, start, out + more)
    {
      forall b | InRun(b, start, out + more) ensures b in image && (out + more)[b - start] == image[b] {
        assert InRun(b, start, out) || InRun(b, start + |out|, more);
      }
    }

    static lemma RunReads(s: State<B>, start: int, out: seq<B>, wrnpass: nat)
      requires wrnpass + |out| <= |s.wr| && start == s.wrstart + wrnpass && out == s.wr[wrnpass..wrnpass + |out|]
      ensures Reads(Image(s), start, out)
    {
      assert forall b | InRun(b, start, out) :: InRun(b, s.wrstart, s.wr);
    }

    /** The blocks of a request that lie before the dirty run. */
    method ReadBefore(start: int, n: nat, rdbuffer: array<B>) returns (ret: int)
      requires Valid() && 0 <= start && start + n <= wrblockstart && n <= rdbuffer.Length
      requires rdbuffer != rhbuffer && rdbuffer != wrbuffer
      modifies this, dev, rhbuffer, rdbuffer
      ensures Valid() && Since(old(Now())) && RunUntouched(old(Now()))
      ensures Accepted(history) == Accepted(old(history))
      ensures ret >= 0 ==> ret == n
      ensures Good() ==> old(Good())
      ensures ret >= 0 && Good() ==> Reads(old(Image(Now())), start, rdbuffer[..n])
      ensures |dev.blocks| == old(|dev.blocks|) && (old(Sure()) ==> Sure())
      ensures dev.reliable && start + n <= |dev.blocks| ==> ret >= 0
      ensures timeouts == old(timeouts) && (Good() <==> old(Good())) && RunKept()
      ensures Quiet(old(timeouts), start, n) ==> Now() == old(AfterLoad(start, n))
    {
      hide Image, Since, RunUntouched, Delivered, Reads, Good, Sure, AfterLoad;
      ghost var entry := Now();
      ret := ReadAhead(start, n, rdbuffer, 0, false);
      if ret >= 0 && Good() {
        assert rdbuffer[0..0 + n] == rdbuffer[..n];
        DeliveredReads(entry, start, rdbuffer[..n]);
      }
    }

    /** The wrsem section of rwb_read: how many blocks it delivered, from the media before the dirty run
        and from the dirty run. */
    method ReadDirty(start: int, n: nat, rdbuffer: array<B>) returns (ret: int)
      requires Valid() && 0 <= start && n <= rdbuffer.Length && rdbuffer != rhbuffer && rdbuffer != wrbuffer
      modifies this, dev, rhbuffer, rdbuffer
      ensures Valid() && Since(old(Now())) && RunUntouched(old(Now()))
      ensures Accepted(history) == Accepted(old(history))
      ensures ret <= n
      ensures Good() ==> old(Good())
      ensures ret >= 0 && Good() ==> Reads(old(Image(Now())), start, rdbuffer[..ret])
      ensures ret >= 0 ==> forall b | Within(b, start + ret, n - ret) :: !InRun(b, wrblockstart, Now().wr)
      ensures |dev.blocks| == old(|dev.blocks|) && (old(Sure()) ==> Sure())
      ensures dev.reliable && start + n <= |dev.blocks| ==> ret >= 0
      ensures timeouts == old(timeouts) && (Good() <==> old(Good())) && RunKept()
      ensures ret >= 0 ==> ret == UpToRun(old(Now()), start, n)
      ensures Quiet(old(timeouts), start, n) ==> Now() == old(AfterLoad(start, Before(Now(), start, n)))
    {
      hide Image, Good, Origin, Run, End, OneClient, WellFormed, Accepted, Sure, AfterLoad;
      ghost var entry := Now();
      AfterLoadNothing(start);
      ret := 0;
      if Overlap(wrblockstart, wrnblocks, start, n) {
        var startblock, nblocks, readblocks := start, n, 0;
        if wrblockstart > startblock {
          ret := ReadBefore(startblock, wrblockstart - startblock, rdbuffer);
          if ret < 0 {
            return;
          }
          startblock := startblock + ret;
          nblocks := nblocks - ret;
          readblocks := ret;
        }
        ret := CopyDirty(entry, start, startblock, nblocks, rdbuffer, readblocks);
      }
    }

    /** Lines 914-927 of rwb_read: the blocks of the request that are dirty. */
    method CopyDirty(ghost entry: State<B>, ghost start: int, startblock: int, nblocks: nat, rdbuffer: array<B>,
                     readblocks: nat)
      returns (ret: nat)
      requires Valid() && RunUntouched(entry) && Now().wr == entry.wr
      requires readblocks + nblocks <= rdbuffer.Length && rdbuffer != rhbuffer && rdbuffer != wrbuffer
      requires startblock == start + readblocks && wrblockstart <= startblock <= wrblockstart + wrnblocks
      requires Good() ==> Reads(Image(entry), start, rdbuffer[..readblocks])
      modifies rdbuffer
      ensures readblocks <= ret <= readblocks + nblocks
      ensures ret == readblocks + if startblock + nblocks <= wrblockstart + wrnblocks then nblocks
                                  else wrblockstart + wrnblocks - startblock
      ensures Good() ==> Reads(Image(entry), start, rdbuffer[..ret])
      ensures forall b | Within(b, start + ret, readblocks + nblocks - ret) :: !InRun(b, wrblockstart, Now().wr)
    {
      hide Image, Good, Origin, Run, End, OneClient, WellFormed;
      var wrnpass := 0;
      if wrblockstart < startblock {
        wrnpass := startblock - wrblockstart;
      }
      var rdblocks := if nblocks > wrnblocks - wrnpass then wrnblocks - wrnpass else nblocks;
      ghost var done := rdbuffer[..readblocks];
      var more := wrbuffer[wrnpass..wrnpass + rdblocks];
      SliceOfPrefix(wrbuffer[..], wrnblocks, wrnpass, wrnpass + rdblocks);
      Memcpy(rdbuffer, readblocks, more);
      ret := readblocks + rdblocks;
      assert rdbuffer[..ret] == rdbuffer[..readblocks] + rdbuffer[readblocks..ret];
      RunReads(entry, startblock, more, wrnpass);
      if Good() {
        ReadsConcat(Image(entry), start, done, more);
      }
    }

    /** What the dirty section delivered, followed by media blocks outside the dirty run. */
    static lemma ReadsThenDelivered(image: map<int, B>, s: State<B>, start: int, done: seq<B>, more: seq<B>)
      requires Reads(image, start, done) && Delivered(s.dev, s, start + |done|, more) && Image(s) == image
      requires forall b | Within(b, start + |done|, |more|) :: !InRun(b, s.wrstart, s.wr)
      ensures Reads(image, start, done + more)
    {
      DeliveredReads(s, start + |done|, more);
      ReadsConcat(image, start, done, more);
    }

    /** The part of rwb_read after wrsem was given back: timeouts may come in between. */
    method ReadRest(ghost image: map<int, B>, ghost start: int, readblocks: nat, first: int, n: nat, rdbuffer: array<B>)
      returns (ret: int)
      requires Valid() && 0 <= first && first == start + readblocks && n == rdbuffer.Length - readblocks
      requires rdbuffer != rhbuffer && rdbuffer != wrbuffer && readblocks <= rdbuffer.Length
      requires forall b | Within(b, first, n) :: !InRun(b, wrblockstart, Now().wr)
      requires Good() ==> Image(Now()) == image && Reads(image, start, rdbuffer[..readblocks])
      modifies this, dev, rhbuffer, rdbuffer
      ensures Valid()
      ensures Accepted(history) == Accepted(old(history))
      ensures ret >= 0 ==> ret == n
      ensures Good() ==> old(Good()) && Image(Now()) == image
      ensures ret >= 0 && Good() ==> Reads(image, start, rdbuffer[..])
      ensures |dev.blocks| == old(|dev.blocks|) && (old(Sure()) ==> Sure())
      ensures dev.reliable && first + n <= |dev.blocks| ==> ret >= 0
      ensures timeouts >= old(timeouts)
      ensures timeouts == old(timeouts) ==> (Good() <==> old(Good())) && RunKept()
      ensures old(wrnblocks) == 0 ==> wrnblocks == 0 && (Good() <==> old(Good()))
      ensures Quiet(old(timeouts), first, n) ==> Now() == old(AfterLoad(first, n))
    {
      hide Image, Good, Origin, Run, End, OneClient, WellFormed, Delivered, Reads, Accepted, Sure, AfterLoad;
      ghost var done, middle := rdbuffer[..readblocks], Now();
      ret := ReadAhead(first, n, rdbuffer, readblocks, true);
      ghost var more := rdbuffer[readblocks..readblocks + n];
      assert rdbuffer[..readblocks] == done;
      assert rdbuffer[..] == done + more;
      if ret >= 0 && Good() {
        ReadsThenDelivered(image, middle, start, done, more);
      }
    }

    /** rwb_read, into a buffer of n blocks */
    method Read(start: int, n: nat, rdbuffer: array<B>) returns (ret: int)
      requires Valid() && 0 <= start && n == rdbuffer.Length && rdbuffer != rhbuffer && rdbuffer != wrbuffer
      modifies this, dev, rhbuffer, rdbuffer
      ensures Valid()
      ensures Accepted(history) == Accepted(old(history))
      ensures ret >= 0 ==> ret == n
      ensures Good() ==> old(Good()) && Image(Now()) == old(Image(Now()))
      ensures ret >= 0 && Good() ==> Reads(old(Image(Now())), start, rdbuffer[..])
      ensures |dev.blocks| == old(|dev.blocks|) && (old(Sure()) ==> Sure())
      ensures dev.reliable && start + n <= |dev.blocks| ==> ret >= 0
      ensures timeouts >= old(timeouts)
      ensures timeouts == old(timeouts) ==> (Good() <==> old(Good())) && RunKept()
      ensures old(wrnblocks) == 0 ==> wrnblocks == 0 && (Good() <==> old(Good())) && Disjoint(Now())
      ensures Quiet(old(timeouts), start, n) ==>
                Now() == AfterRead(old(Now()), start, n, wrmaxblocks, rhmaxblocks)
    {
      hide Image, Good, Origin, Run, End, OneClient, WellFormed, Accepted, Sure, Loaded;
      ghost var image := Image(Now());
      var readblocks := 0;
      if wrmaxblocks > 0 {
        readblocks := ReadDirty(start, n, rdbuffer);
        if readblocks < 0 {
          return readblocks;
        }
      }
      ret := ReadRest(image, start, readblocks, start + readblocks, n - readblocks, rdbuffer);
      if ret >= 0 {
        ret := readblocks + ret;
      }
    }

    /** rwb_flush */
    method Flush()
      requires Valid()
      modifies this, dev
      ensures Valid() && wrnblocks == 0 && AtMostFlushed() && timeouts == old(timeouts)
      ensures old(wrnblocks) == 0 ==> Now() == old(Now()) && (Good() <==> old(Good()))
      ensures old(wrnblocks) > 0 && dev.reliable && old(InRange()) ==>
                && Now() == Flushed(old(Now()))
                && (Good() <==> old(Good()) && OverlapAgrees(old(Now())))
      ensures old(Orderly()) ==> Orderly()
    {
      WrFlush();
    }

    /** One client call. */
    method Call(op: Op<B>) returns (reply: Reply<B>)
      requires Valid()
      modifies this, dev, wrbuffer, rhbuffer
      ensures Valid()
      ensures Good() ==> old(Good()) && Answers(old(Image(Now())), op, reply)
      ensures Good() ==> Image(Now()) == After(old(Image(Now())), op, reply)
      ensures |dev.blocks| == old(|dev.blocks|)
      ensures old(Sure()) && OpInRange(op, |dev.blocks|) ==> Sure() && !reply.Failed?
      ensures timeouts >= old(timeouts)
      ensures timeouts == old(timeouts) && old(Sure()) && OpInRange(op, |dev.blocks|) ==>
                && Now() == OpState(old(Now()), op, wrmaxblocks, rhmaxblocks)
                && (Good() <==> old(Good()) && OpAgrees(old(Now()), op, wrmaxblocks, rhmaxblocks))
      ensures old(Orderly()) && OpInRange(op, |dev.blocks|) && (op.ReadOp? ==> old(wrnblocks) == 0) ==>
                Orderly() && (!op.WriteOp? ==> wrnblocks == 0)
    {
      hide Image, Good, Origin, Run, End, OneClient, NoLoss, AfterRead, AfterWrite, WriteAgrees, OverlapAgrees;
      match op
      case ReadOp(start, n) =>
        var rdbuffer := new B[n];
        var ret := Read(start, n, rdbuffer);
        reply := if ret < 0 then Failed else Data(rdbuffer[..]);
      case WriteOp(at, x) =>
        var ret := Write(at, x);
        reply := if ret < 0 then Failed else Done;
      case FlushOp =>
        Flush();
        reply := Done;
    }

    /** Any sequence of calls, with timeouts at every point where wrsem is free, answers like a plain array
        of blocks, as long as no dirty run was dropped and every flush found the buffers in agreement; and
        none of them fails if they lie on media that never fails. */
    method Execute(ops: seq<Op<B>>) returns (replies: seq<Reply<B>>)
      requires Valid()
      modifies this, dev, wrbuffer, rhbuffer
      ensures Valid() && |replies| == |ops|
      ensures Good() ==> PlainReplies(old(Image(Now())), ops, replies)
      ensures Good() ==> Image(Now()) == AfterAll(old(Image(Now())), ops, replies)
      ensures |dev.blocks| == old(|dev.blocks|)
      ensures old(Sure()) && AllInRange(ops, |dev.blocks|) ==> Sure() && NoneFailed(replies)
      ensures timeouts >= old(timeouts)
      ensures timeouts == old(timeouts) && old(Sure()) && AllInRange(ops, |dev.blocks|) ==>
                && Now() == CallsState(old(Now()), ops, wrmaxblocks, rhmaxblocks)
                && (Good() <==> old(Good()) && CallsAgree(old(Now()), ops, wrmaxblocks, rhmaxblocks))
      ensures old(Orderly()) && AllInRange(ops, |dev.blocks|) && FlushesFirst(ops, old(wrnblocks) > 0) ==> Orderly()
    {
      hide Image, Good, Sure, Orderly, Origin, Run, End, OneClient, WellFormed, Unflushed;
      hide AfterAll, PlainReplies, Answers, After, NoneFailed, OpInRange, Ready, OpState, OpAgrees, CallsAgree;
      ghost var m, size, s := Image(Now()), |dev.blocks|, Now();
      ghost var sure := Sure() && AllInRange(ops, size);
      ghost var orderly := Orderly() && AllInRange(ops, size) && FlushesFirst(ops, wrnblocks > 0);
      replies := [];
      if sure { ReadyForCalls(ops); }
      NoCalls(m, ops, wrnblocks > 0);
      for i := 0 to |ops|
        invariant Valid() && |replies| == i && |dev.blocks| == size
        invariant Good() ==> PlainReplies(m, ops[..i], replies) && Image(Now()) == AfterAll(m, ops[..i], replies)
        invariant sure ==> Sure() && NoneFailed(replies)
        invariant timeouts >= old(timeouts)
        invariant timeouts == old(timeouts) && sure ==>
                    && Now() == CallsState(s, ops[..i], wrmaxblocks, rhmaxblocks)
                    && (Good() <==> old(Good()) && CallsAgree(s, ops[..i], wrmaxblocks, rhmaxblocks))
        invariant orderly ==> Orderly() && (!Unflushed(ops[..i], old(wrnblocks) > 0) ==> wrnblocks == 0)
      {
        MayTimeOutBetween();
        var reply := Call(ops[i]);
        assert ops[..i + 1] == ops[..i] + [ops[i]];
        AfterOneMore(m, ops[..i], replies, ops[i], reply);
        if Good() {
          PlainOneMore(m, ops[..i], replies, ops[i], reply);
        }
        OneMoreSucceeds(ops, i, replies, reply, size);
        UnflushedOneMore(ops, i, old(wrnblocks) > 0);
        if sure { CallsOneMore(s, ops, i, wrmaxblocks, rhmaxblocks); }
        replies := replies + [reply];
      }
      assert ops[..|ops|] == ops;
    }

    lemma ReadyForCalls(ops: seq<Op<B>>)
      requires Valid() && Sure()
      ensures Ready(Now(), wrmaxblocks)
      ensures CallsState(Now(), ops[..0], wrmaxblocks, rhmaxblocks) == Now()
      ensures CallsAgree(Now(), ops[..0], wrmaxblocks, rhmaxblocks)
    {
    }

    /** A timeout between two calls. */
    method MayTimeOutBetween()
      requires Valid()
      modifies this, dev
      ensures Valid() && |dev.blocks| == old(|dev.blocks|)
      ensures Good() ==> old(Good()) && Image(Now()) == old(Image(Now()))
      ensures old(Sure()) ==> Sure()
      ensures timeouts >= old(timeouts)
      ensures timeouts == old(timeouts) ==> Now() == old(Now()) && (Good() <==> old(Good()))
      ensures (old(wrnblocks) == 0 ==> wrnblocks == 0) && (old(Orderly()) ==> Orderly())
    {
      MayTimeOut();
    }

    /** Without read-ahead, only a failing flush can spoil a run. */
    lemma WriteBufferOnly()
      requires Valid() && rhmaxblocks == 0
      ensures Good() <==> NoLoss(history)
    {
      NoReadAheadAgrees(initial, history, wrmaxblocks);
    }

    /** Without a write buffer every run is good, and the window always equals the media. */
    lemma ReadAheadOnly()
      requires Valid() && wrmaxblocks == 0
      ensures Good()
      ensures WindowOk(Now()) && Now().wr == [] && Image(Now()) == RunMap(0, dev.blocks)
    {
      NoWriteBufferAgrees(initial, history, rhmaxblocks);
      GoodIsCoherent();
      assert Now().wr == [];
      RunMapEmpty<B>(wrblockstart);
    }

    /** With one of the two buffers, on media that never fails: any sequence of calls on the media, with timeouts
        at every point where wrsem is free, is answered like a plain array of blocks, and no call fails. */
    method ExecuteReliably(ops: seq<Op<B>>) returns (replies: seq<Reply<B>>)
      requires Valid() && Sure() && (rhmaxblocks == 0 || wrmaxblocks == 0)
      requires AllInRange(ops, |dev.blocks|)
      modifies this, dev, wrbuffer, rhbuffer
      ensures Valid() && Sure() && |replies| == |ops| && NoneFailed(replies)
      ensures PlainReplies(old(Image(Now())), ops, replies)
      ensures Image(Now()) == AfterAll(old(Image(Now())), ops, replies)
    {
      hide Image, Origin, Run, End, OneClient, WellFormed, AfterAll, PlainReplies, AllInRange, NoneFailed;
      replies := Execute(ops);
      if rhmaxblocks == 0 {
        WriteBufferOnly();
      } else {
        ReadAheadOnly();
      }
    }

    /** With both buffers too, if the client flushes what it wrote before it reads. */
    method ExecuteOrderly(ops: seq<Op<B>>) returns (replies: seq<Reply<B>>)
      requires Valid() && Orderly() && AllInRange(ops, |dev.blocks|) && FlushesFirst(ops, wrnblocks > 0)
      modifies this, dev, wrbuffer, rhbuffer
      ensures Valid() && Orderly() && |replies| == |ops| && NoneFailed(replies)
      ensures PlainReplies(old(Image(Now())), ops, replies)
      ensures Image(Now()) == AfterAll(old(Image(Now())), ops, replies)
    {
      hide Image, Origin, Run, End, OneClient, WellFormed, AfterAll, PlainReplies, AllInRange, NoneFailed, FlushesFirst;
      replies := Execute(ops);
    }

    /** Everything accepted from the client, in order, is what was handed to the media followed by the
        dirty run. */
    lemma NothingLost()
      requires Valid() && NoLoss(history)
      ensures Accepted(history) ==
              Handed(initial, history, wrmaxblocks, rhmaxblocks) + Pairs(wrblockstart, wrbuffer[..wrnblocks])
    {
      OneClientInOrder(initial, history, wrmaxblocks, rhmaxblocks);
      Conservation(initial, history, wrmaxblocks, rhmaxblocks);
      assert Pairs(initial.wrstart, initial.wr) + Accepted(history) == Accepted(history);
    }
  }

  /** The sections of rwb_write of block 1 and of rwb_read of block 0, which loads ahead over the dirty block. */
  method WriteThenLoad(rwb: Buffer<int>)
    requires rwb.Valid() && rwb.wrmaxblocks == 4 && rwb.rhmaxblocks == 4 && rwb.dev.reliable
    requires rwb.Now() == State([0, 0, 0, 0], -1, [], -1, -1, [])
    modifies rwb, rwb.dev, rwb.wrbuffer, rwb.rhbuffer
    ensures rwb.Valid() && rwb.Now() == State([0, 0, 0, 0], 1, [7], 2, 0, [0, 0, 0, 0])
  {
    hide Run, End, OneClient, NoLoss, AgreeAtFlushes, WindowOk, Image, Accepted;
    rwb.ClearOverlap(1, 1);
    var ret := rwb.WriteBuffer(1, [7]);
    assert rwb.Now() == State([0, 0, 0, 0], 1, [7], 2, -1, []);
    ret := rwb.RhReload(0);
  }

  /** A timeout and the section of rwb_read of block 1. */
  method TimeoutThenServe(rwb: Buffer<int>) returns (out: seq<int>)
    requires rwb.Valid() && rwb.dev.reliable && rwb.Now() == State([0, 0, 0, 0], 1, [7], 2, 0, [0, 0, 0, 0])
    modifies rwb, rwb.dev
    ensures rwb.Valid() && rwb.wrnblocks == 0 && Image(rwb.Now()) == old(Image(rwb.Now())) && out == [0]
  {
    hide Run, End, OneClient, NoLoss, AgreeAtFlushes, WindowOk, Image, Accepted;
    rwb.WrFlush();
    var rdbuffer := new int[1];
    assert rwb.rhbuffer[..4][1..2] == [0];
    var n := rwb.ServeFromWindow(1, 1, rdbuffer, 0);
    out := rdbuffer[0..0 + n];
  }

  /** All of them, on media that never fails: block 1 holds the 7 that was written, nothing is dirty any more,
      and the read delivers the 0 from before the write. */
  method StaleReadInCode() returns (out: seq<int>, rwb: Buffer<int>)
    ensures rwb.Valid() && rwb.wrnblocks == 0 && 1 in Image(rwb.Now()) && Image(rwb.Now())[1] == 7
    ensures out == [0]
  {
    hide Run, End, OneClient, NoLoss, AgreeAtFlushes, WindowOk, Accepted;
    var dev := new Device([0, 0, 0, 0], true);
    rwb := new Buffer<int>(dev, 4, 4);
    WriteThenLoad(rwb);
    OnImage(rwb.Now(), 1);
    hide Image;
    out := TimeoutThenServe(rwb);
  }
}
