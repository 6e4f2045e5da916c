/** audio/audio_comp.c: one device that drives several, undoing on failure and tearing down in reverse order. */
module AudioComp {

  const ENOTTY := 25
  const ENOMEM := 12
  const OK := 0

  datatype Op = Start | Stop | Pause | Resume | Reserve | Release | Shutdown

  /** A lower device: the operations its table provides. */
  datatype Lower = Lower(ops: set<Op>)

  /** A call made to lower[device]. */
  datatype Call = Call(op: Op, device: nat)

  /** What lower[i] answers when an operation it provides is called. */
  type Answers = nat -> int

  predicate Provides(lower: seq<Lower>, op: Op, i: nat)
  {
    i < |lower| && op in lower[i].ops
  }

  /** -ENOTTY counts as not supported. */
  predicate Supports(lower: seq<Lower>, op: Op, answer: Answers, i: nat)
  {
    Provides(lower, op, i) && answer(i) != -ENOTTY
  }

  predicate Fails(lower: seq<Lower>, op: Op, answer: Answers, i: nat)
  {
    Supports(lower, op, answer, i) && answer(i) < 0
  }

  /** The calls of op to the providers among the first n devices, in either order. */
  function Ascending(lower: seq<Lower>, op: Op, n: nat): seq<Call>
  {
    if n == 0 then []
    else Ascending(lower, op, n - 1) + IfProvided(lower, op, n - 1)
  }

  function Descending(lower: seq<Lower>, op: Op, n: nat): seq<Call>
  {
    if n == 0 then []
    else IfProvided(lower, op, n - 1) + Descending(lower, op, n - 1)
  }

  function IfProvided(lower: seq<Lower>, op: Op, i: nat): seq<Call>
  {
    if Provides(lower, op, i) then [Call(op, i)] else []
  }

  lemma InIfProvided(lower: seq<Lower>, op: Op, i: nat, call: Call)
    ensures call in IfProvided(lower, op, i) <==> call == Call(op, i) && Provides(lower, op, i)
  {
  }

  lemma InEither(call: Call, a: seq<Call>, b: seq<Call>)
    ensures call in a + b <==> call in a || call in b
  {
  }

  lemma OneMoreUp(calls: seq<Call>, lower: seq<Lower>, op: Op, i: nat)
    ensures calls + Ascending(lower, op, i) + IfProvided(lower, op, i) == calls + Ascending(lower, op, i + 1)
  {
    hide IfProvided;
  }

  lemma OneMoreDown(calls: seq<Call>, lower: seq<Lower>, op: Op, i: nat)
    ensures calls + IfProvided(lower, op, i) + Descending(lower, op, i) == calls + Descending(lower, op, i + 1)
  {
    hide IfProvided;
  }

  lemma NoneLeft(calls: seq<Call>, lower: seq<Lower>, op: Op)
    ensures calls + Ascending(lower, op, 0) == calls && calls + Descending(lower, op, 0) == calls
  {
  }

  // -------------------------------------------------------------------------
  // What those orders are

  lemma {:induction false} DescendingExactly(lower: seq<Lower>, op: Op, n: nat, call: Call)
    ensures call in Descending(lower, op, n) <==> call.op == op && call.device < n && Provides(lower, op, call.device)
  {
    if n > 0 {
      var first, rest := IfProvided(lower, op, n - 1), Descending(lower, op, n - 1);
      assert Descending(lower, op, n) == first + rest;
      hide Descending, IfProvided, Provides;
      DescendingExactly(lower, op, n - 1, call);
      InIfProvided(lower, op, n - 1, call);
      InEither(call, first, rest);
    }
  }

  /** Each provider is called once, a later call going to a lower index. */
  lemma {:induction false} DescendingOrder(lower: seq<Lower>, op: Op, n: nat, a: nat, b: nat)
    requires a < b < |Descending(lower, op, n)|
    ensures Descending(lower, op, n)[a].device > Descending(lower, op, n)[b].device
  {
    var first, rest := IfProvided(lower, op, n - 1), Descending(lower, op, n - 1);
    assert Descending(lower, op, n) == first + rest;
    var b' := b - |first|;
    if a < |first| {
      assert rest[b'] in rest;
      DescendingExactly(lower, op, n - 1, rest[b']);
    } else {
      DescendingOrder(lower, op, n - 1, a - |first|, b');
    }
  }

  lemma {:induction false} AscendingExactly(lower: seq<Lower>, op: Op, n: nat, call: Call)
    ensures call in Ascending(lower, op, n) <==> call.op == op && call.device < n && Provides(lower, op, call.device)
  {
    if n > 0 {
      var rest, last := Ascending(lower, op, n - 1), IfProvided(lower, op, n - 1);
      assert Ascending(lower, op, n) == rest + last;
      hide Ascending, IfProvided, Provides;
      AscendingExactly(lower, op, n - 1, call);
      InIfProvided(lower, op, n - 1, call);
      InEither(call, rest, last);
    }
  }

  /** Each provider is called once, a later call going to a higher index. */
  lemma {:induction false} AscendingOrder(lower: seq<Lower>, op: Op, n: nat, a: nat, b: nat)
    requires a < b < |Ascending(lower, op, n)|
    ensures Ascending(lower, op, n)[a].device < Ascending(lower, op, n)[b].device
  {
    var rest, last := Ascending(lower, op, n - 1), IfProvided(lower, op, n - 1);
    assert Ascending(lower, op, n) == rest + last;
    if b < |rest| {
      AscendingOrder(lower, op, n - 1, a, b);
    } else {
      assert rest[a] in rest;
      AscendingExactly(lower, op, n - 1, rest[a]);
    }
  }

  // -------------------------------------------------------------------------
  // What is left up

  /** Whether a device is up after calls, if a do that does not fail brings it up and an undo takes it down. */
  function Up(calls: seq<Call>, do: Op, undo: Op, answer: Answers, device: nat): bool
  {
    if calls == [] then false
    else
      var last := calls[|calls| - 1];
      if last == Call(undo, device) then false
      else if last == Call(do, device) && answer(device) >= 0 then true
      else Up(calls[..|calls| - 1], do, undo, answer, device)
  }

  lemma UpSnoc(calls: seq<Call>, call: Call, do: Op, undo: Op, answer: Answers, device: nat)
    ensures Up(calls + [call], do, undo, answer, device)
            == if call == Call(undo, device) then false
               else if call == Call(do, device) && answer(device) >= 0 then true
               else Up(calls, do, undo, answer, device)
  {
    assert (calls + [call])[..|calls + [call]| - 1] == calls;
  }

  lemma UpIfProvided(calls: seq<Call>, lower: seq<Lower>, op: Op, i: nat,
                     do: Op, undo: Op, answer: Answers, device: nat)
    requires op == do || op == undo
    requires do != undo
    ensures Up(calls + IfProvided(lower, op, i), do, undo, answer, device)
            == if device != i || !Provides(lower, op, i) then Up(calls, do, undo, answer, device)
               else if op == do then answer(i) >= 0 || Up(calls, do, undo, answer, device)
               else false
  {
    hide Up;
    if Provides(lower, op, i) {
      UpSnoc(calls, Call(op, i), do, undo, answer, device);
    } else {
      assert calls + [] == calls;
    }
  }

  lemma {:induction false} UpAfterAscending(lower: seq<Lower>, do: Op, undo: Op, answer: Answers, n: nat, device: nat)
    requires do != undo
    ensures Up(Ascending(lower, do, n), do, undo, answer, device)
            <==> device < n && Provides(lower, do, device) && answer(device) >= 0
  {
    hide IfProvided;
    if n > 0 {
      UpAfterAscending(lower, do, undo, answer, n - 1, device);
      UpIfProvided(Ascending(lower, do, n - 1), lower, do, n - 1, do, undo, answer, device);
      hide Up;
    }
  }

  lemma {:induction false} UpAfterDescending(lower: seq<Lower>, calls: seq<Call>, do: Op, undo: Op, answer: Answers,
                                             n: nat, device: nat)
    requires do != undo
    ensures Up(calls + Descending(lower, undo, n), do, undo, answer, device)
            <==> Up(calls, do, undo, answer, device) && !(device < n && Provides(lower, undo, device))
    decreases n
  {
    hide Up, Descending, IfProvided;
    if n == 0 {
      NoneLeft(calls, lower, undo);
    } else {
      var calls' := calls + IfProvided(lower, undo, n - 1);
      UpAfterDescending(lower, calls', do, undo, answer, n - 1, device);
      UpIfProvided(calls, lower, undo, n - 1, do, undo, answer, device);
      OneMoreDown(calls, lower, undo, n - 1);
    }
  }

  /** The calls of a bring-up in which device k is the first to fail. */
  function FailedCalls(lower: seq<Lower>, do: Op, undo: Op, k: nat): seq<Call>
  {
    Ascending(lower, do, k + 1) + Descending(lower, undo, k)
  }

  /** After a failed bring-up exactly those devices stay up that came up and provide no way back. */
  lemma LeftUpAfterFailure(lower: seq<Lower>, do: Op, undo: Op, answer: Answers, k: nat, device: nat)
    requires do != undo && Fails(lower, do, answer, k)
    ensures Up(FailedCalls(lower, do, undo, k), do, undo, answer, device)
            <==> device < k && Provides(lower, do, device) && answer(device) >= 0 && !Provides(lower, undo, device)
  {
    UpAfterAscending(lower, do, undo, answer, k + 1, device);
    UpAfterDescending(lower, Ascending(lower, do, k + 1), do, undo, answer, k, device);
  }

  /** So none stays up exactly when every device that came up provides the undo. */
  lemma NoneLeftUpExactlyWhen(lower: seq<Lower>, do: Op, undo: Op, answer: Answers, k: nat)
    requires do != undo && Fails(lower, do, answer, k)
    ensures (forall device: nat :: !Up(FailedCalls(lower, do, undo, k), do, undo, answer, device))
            <==> (forall i: nat :: i < k && Provides(lower, do, i) && answer(i) >= 0 ==> Provides(lower, undo, i))
  {
    if forall i: nat :: i < k && Provides(lower, do, i) && answer(i) >= 0 ==> Provides(lower, undo, i) {
      forall device: nat ensures !Up(FailedCalls(lower, do, undo, k), do, undo, answer, device) {
        LeftUpAfterFailure(lower, do, undo, answer, k, device);
      }
    } else {
      var i: nat :| i < k && Provides(lower, do, i) && answer(i) >= 0 && !Provides(lower, undo, i);
      LeftUpAfterFailure(lower, do, undo, answer, k, i);
    }
  }

  /** Tearing down after a complete bring-up leaves up only what provides no undo, whatever the undos answer. */
  lemma LeftUpAfterTearDown(lower: seq<Lower>, do: Op, undo: Op, answer: Answers, device: nat)
    requires do != undo
    ensures Up(Ascending(lower, do, |lower|) + Descending(lower, undo, |lower|), do, undo, answer, device)
            <==> Provides(lower, do, device) && answer(device) >= 0 && !Provides(lower, undo, device)
  {
    UpAfterAscending(lower, do, undo, answer, |lower|, device);
    UpAfterDescending(lower, Ascending(lower, do, |lower|), do, undo, answer, |lower|, device);
  }

  // -------------------------------------------------------------------------
  // Results

  /** The first device from index n on that fails, or their number. */
  function FirstFailure(lower: seq<Lower>, op: Op, answer: Answers, n: nat): (k: nat)
    requires n <= |lower|
    ensures n <= k <= |lower| && (k < |lower| ==> Fails(lower, op, answer, k))
    ensures forall i :: n <= i < k ==> !Fails(lower, op, answer, i)
    decreases |lower| - n
  {
    if n == |lower| || Fails(lower, op, answer, n) then n else FirstFailure(lower, op, answer, n + 1)
  }

  /** The first device from index n on that supports the operation, or their number. */
  function FirstSupported(lower: seq<Lower>, op: Op, answer: Answers, n: nat): (k: nat)
    requires n <= |lower|
    ensures n <= k <= |lower| && (k < |lower| ==> Supports(lower, op, answer, k))
    ensures forall i :: n <= i < k ==> !Supports(lower, op, answer, i)
    decreases |lower| - n
  {
    if n == |lower| || Supports(lower, op, answer, n) then n else FirstSupported(lower, op, answer, n + 1)
  }

  /** One more than the last of the first n devices that supports the operation, or zero. */
  function LastSupported(lower: seq<Lower>, op: Op, answer: Answers, n: nat): (k: nat)
    requires n <= |lower|
    ensures k <= n && (k > 0 ==> Supports(lower, op, answer, k - 1))
    ensures forall i :: k <= i < n ==> !Supports(lower, op, answer, i)
  {
    if n == 0 || Supports(lower, op, answer, n - 1) then n else LastSupported(lower, op, answer, n - 1)
  }

  /** The last supported answer of the first n devices, else the default. */
  function LastAnswer(lower: seq<Lower>, op: Op, answer: Answers, n: nat, none: int): int
    requires n <= |lower|
  {
    var k := LastSupported(lower, op, answer, n);
    if k > 0 then answer(k - 1) else none
  }

  /** A bring-up returns the first failure, else the last supported answer, else the default. */
  function BringUpAnswer(lower: seq<Lower>, op: Op, answer: Answers, none: int): int
  {
    var k := FirstFailure(lower, op, answer, 0);
    if k < |lower| then answer(k) else LastAnswer(lower, op, answer, |lower|, none)
  }

  function BringUpCalls(lower: seq<Lower>, do: Op, undo: Op, answer: Answers): seq<Call>
  {
    var k := FirstFailure(lower, do, answer, 0);
    if k < |lower| then FailedCalls(lower, do, undo, k) else Ascending(lower, do, |lower|)
  }

  /** A tear-down of the devices from index n on: the lowest failure, else the lowest supported answer, else
      the default. */
  function TearDownAnswer(lower: seq<Lower>, op: Op, answer: Answers, n: nat, none: int): int
    requires n <= |lower|
  {
    var k, s := FirstFailure(lower, op, answer, n), FirstSupported(lower, op, answer, n);
    if k < |lower| then answer(k) else if s < |lower| then answer(s) else none
  }

  /** How the condition in the tear-down loop keeps that answer. */
  lemma TearDownStep(lower: seq<Lower>, op: Op, answer: Answers, n: nat, none: int)
    requires n < |lower| && (none == -ENOTTY || none == OK)
    ensures var r := TearDownAnswer(lower, op, answer, n + 1, none);
            TearDownAnswer(lower, op, answer, n, none)
            == if Supports(lower, op, answer, n) && (answer(n) < 0 || r == -ENOTTY || r >= 0) then answer(n) else r
  {
    var s := FirstSupported(lower, op, answer, n + 1);
    assert FirstFailure(lower, op, answer, n + 1) == |lower| && s < |lower| ==> !Fails(lower, op, answer, s);
  }

  lemma NothingYet(lower: seq<Lower>, op: Op, answer: Answers, none: int)
    ensures LastAnswer(lower, op, answer, 0, none) == none
  {
  }

  lemma LastAnswerStep(lower: seq<Lower>, op: Op, answer: Answers, n: nat, none: int)
    requires n < |lower|
    ensures LastAnswer(lower, op, answer, n + 1, none)
            == if Supports(lower, op, answer, n) then answer(n) else LastAnswer(lower, op, answer, n, none)
  {
  }

  lemma NoFailureYet(lower: seq<Lower>, op: Op, answer: Answers, n: nat)
    requires n < |lower| && FirstFailure(lower, op, answer, 0) >= n
    ensures if Fails(lower, op, answer, n) then FirstFailure(lower, op, answer, 0) == n
            else FirstFailure(lower, op, answer, 0) >= n + 1
  {
  }

  lemma ReserveFails(lower: seq<Lower>, answer: Answers)
    ensures BringUpAnswer(lower, Reserve, answer, OK) >= 0 <==> forall i: nat :: !Fails(lower, Reserve, answer, i)
  {
    var k, s := FirstFailure(lower, Reserve, answer, 0), LastSupported(lower, Reserve, answer, |lower|);
    if k == |lower| {
      assert s > 0 ==> !Fails(lower, Reserve, answer, s - 1);
      forall i: nat ensures !Fails(lower, Reserve, answer, i) {
        assert i >= |lower| ==> !Provides(lower, Reserve, i);
      }
    } else {
      assert Fails(lower, Reserve, answer, k);
    }
  }

  // -------------------------------------------------------------------------
  // What a bring-up and a tear-down do and answer, by which devices fail and which support the operation

  ghost predicate FailsFirst(lower: seq<Lower>, op: Op, answer: Answers, k: nat)
  {
    Fails(lower, op, answer, k) && forall i: nat :: i < k ==> !Fails(lower, op, answer, i)
  }

  ghost predicate NoneFails(lower: seq<Lower>, op: Op, answer: Answers)
  {
    forall i: nat :: !Fails(lower, op, answer, i)
  }

  ghost predicate NoneSupports(lower: seq<Lower>, op: Op, answer: Answers)
  {
    forall i: nat :: !Supports(lower, op, answer, i)
  }

  lemma FirstFailureIs(lower: seq<Lower>, op: Op, answer: Answers, k: nat)
    requires FailsFirst(lower, op, answer, k)
    ensures FirstFailure(lower, op, answer, 0) == k
  {
  }

  /** If device k is the first to fail, the devices up to it are called, those before it are undone, and what stays up
      came up and has no undo. */
  lemma FailedBringUp(lower: seq<Lower>, do: Op, undo: Op, answer: Answers, k: nat, device: nat)
    requires do != undo && FailsFirst(lower, do, answer, k)
    ensures var calls := BringUpCalls(lower, do, undo, answer);
            && (Call(do, device) in calls <==> device <= k && Provides(lower, do, device))
            && (Call(undo, device) in calls <==> device < k && Provides(lower, undo, device))
            && (Up(calls, do, undo, answer, device) <==>
                && device < k && Provides(lower, do, device) && answer(device) >= 0
                && !Provides(lower, undo, device))
  {
    hide Up, Ascending, Descending;
    FirstFailureIs(lower, do, answer, k);
    LeftUpAfterFailure(lower, do, undo, answer, k, device);
    var up, down := Ascending(lower, do, k + 1), Descending(lower, undo, k);
    AscendingExactly(lower, do, k + 1, Call(do, device)); AscendingExactly(lower, do, k + 1, Call(undo, device));
    DescendingExactly(lower, undo, k, Call(do, device)); DescendingExactly(lower, undo, k, Call(undo, device));
    assert forall call: Call :: call in up + down <==> call in up || call in down;
  }

  /** First upwards through the bring-ups, then downwards through the undos. */
  lemma FailedBringUpOrder(lower: seq<Lower>, do: Op, undo: Op, answer: Answers, k: nat, a: nat, b: nat)
    requires do != undo && FailsFirst(lower, do, answer, k)
    requires a < b < |BringUpCalls(lower, do, undo, answer)|
    ensures var calls := BringUpCalls(lower, do, undo, answer);
            && (calls[b].op == do ==> calls[a].op == do && calls[a].device < calls[b].device)
            && (calls[a].op == undo ==> calls[b].op == undo && calls[a].device > calls[b].device)
  {
    hide Ascending, Descending;
    FirstFailureIs(lower, do, answer, k);
    var up, down := Ascending(lower, do, k + 1), Descending(lower, undo, k);
    if b < |up| {
      assert up[a] in up && up[b] in up;
      AscendingExactly(lower, do, k + 1, up[a]); AscendingExactly(lower, do, k + 1, up[b]);
      AscendingOrder(lower, do, k + 1, a, b);
    } else {
      assert down[b - |up|] in down;
      DescendingExactly(lower, undo, k, down[b - |up|]);
      if a < |up| {
        assert up[a] in up;
        AscendingExactly(lower, do, k + 1, up[a]);
      } else {
        DescendingOrder(lower, undo, k, a - |up|, b - |up|);
      }
    }
  }

  /** If none fails, every provider is called, nothing is undone, and every device that answered well is up. */
  lemma CompleteBringUp(lower: seq<Lower>, do: Op, undo: Op, answer: Answers, device: nat)
    requires do != undo && NoneFails(lower, do, answer)
    ensures var calls := BringUpCalls(lower, do, undo, answer);
            && (Call(do, device) in calls <==> Provides(lower, do, device))
            && Call(undo, device) !in calls
            && (Up(calls, do, undo, answer, device) <==> Provides(lower, do, device) && answer(device) >= 0)
  {
    hide Up, Ascending;
    assert FirstFailure(lower, do, answer, 0) == |lower|;
    AscendingExactly(lower, do, |lower|, Call(do, device)); AscendingExactly(lower, do, |lower|, Call(undo, device));
    UpAfterAscending(lower, do, undo, answer, |lower|, device);
  }

  /** The answer is that of the first device to fail; if none fails, of the last that supports the operation; if none
      does, the one the caller starts from. */
  lemma BringUpResult(lower: seq<Lower>, op: Op, answer: Answers, none: int, i: nat)
    ensures FailsFirst(lower, op, answer, i) ==> BringUpAnswer(lower, op, answer, none) == answer(i)
    ensures NoneFails(lower, op, answer) && Supports(lower, op, answer, i)
            && (forall j: nat :: j > i ==> !Supports(lower, op, answer, j)) ==>
              BringUpAnswer(lower, op, answer, none) == answer(i)
    ensures NoneSupports(lower, op, answer) ==> BringUpAnswer(lower, op, answer, none) == none
  {
    var k, s := FirstFailure(lower, op, answer, 0), LastSupported(lower, op, answer, |lower|);
    if FailsFirst(lower, op, answer, i) {
      FirstFailureIs(lower, op, answer, i);
    } else if Supports(lower, op, answer, i) && forall j: nat :: j > i ==> !Supports(lower, op, answer, j) {
      assert s == i + 1;
    } else if s > 0 {
      assert Supports(lower, op, answer, s - 1);
    }
  }

  /** A tear-down answers for the lowest device that fails; if none fails, for the lowest that supports the operation;
      if none does, what the caller starts from. */
  lemma TearDownResult(lower: seq<Lower>, op: Op, answer: Answers, none: int, i: nat)
    ensures FailsFirst(lower, op, answer, i) ==> TearDownAnswer(lower, op, answer, 0, none) == answer(i)
    ensures NoneFails(lower, op, answer) && Supports(lower, op, answer, i)
            && (forall j: nat :: j < i ==> !Supports(lower, op, answer, j)) ==>
              TearDownAnswer(lower, op, answer, 0, none) == answer(i)
    ensures NoneSupports(lower, op, answer) ==> TearDownAnswer(lower, op, answer, 0, none) == none
  {
    var k, s := FirstFailure(lower, op, answer, 0), FirstSupported(lower, op, answer, 0);
    if FailsFirst(lower, op, answer, i) {
      FirstFailureIs(lower, op, answer, i);
    } else if Supports(lower, op, answer, i) && forall j: nat :: j < i ==> !Supports(lower, op, answer, j) {
      assert s == i;
    }
  }

  // -------------------------------------------------------------------------
  // The composite device

  class Composite {
    const lower: seq<Lower>
    var calls: seq<Call>  // every call made to a lower device

    constructor (lower: seq<Lower>)
      ensures this.lower == lower && calls == []
    {
      this.lower := lower;
      calls := [];
    }

    /** lower[i]->ops->op, if there is one. */
    method Invoke(op: Op, i: nat) returns (provided: bool)
      requires i < |lower|
      modifies this`calls
      ensures provided == Provides(lower, op, i) && calls == old(calls) + IfProvided(lower, op, i)
    {
      provided := op in lower[i].ops;
      if provided {
        calls := calls + [Call(op, i)];
      }
    }

    /** The loop of audio_comp_start, _resume and _reserve. */
    method BringUp(do: Op, undo: Op, none: int, answer: Answers) returns (ret: int)
      modifies this`calls
      ensures ret == BringUpAnswer(lower, do, answer, none)
      ensures calls == old(calls) + BringUpCalls(lower, do, undo, answer)
    {
      hide FirstFailure, LastAnswer, Ascending, Descending, IfProvided;
      ret := none;
      var i: nat := 0;
      NothingYet(lower, do, answer, none);
      NoneLeft(calls, lower, do);
      while i < |lower|
        invariant i <= |lower| && calls == old(calls) + Ascending(lower, do, i)
        invariant FirstFailure(lower, do, answer, 0) >= i
        invariant ret == LastAnswer(lower, do, answer, i, none)
      {
        LastAnswerStep(lower, do, answer, i, none);
        NoFailureYet(lower, do, answer, i);
        OneMoreUp(old(calls), lower, do, i);
        var provided := Invoke(do, i);
        if provided {
          var tmp := answer(i);
          if tmp != -ENOTTY {
            ret := tmp;
            if ret < 0 {
              RollBack(undo, i);
              return;
            }
          }
        }
        i := i + 1;
      }
    }

    /** The inner loop: undo what was done, last first. */
    method RollBack(undo: Op, n: nat)
      requires n <= |lower|
      modifies this`calls
      ensures calls == old(calls) + Descending(lower, undo, n)
    {
      hide Descending, IfProvided;
      var i: nat := n;
      while i > 0
        invariant i <= n && calls + Descending(lower, undo, i) == old(calls) + Descending(lower, undo, n)
      {
        i := i - 1;
        OneMoreDown(calls, lower, undo, i);
        var provided := Invoke(undo, i);
      }
      NoneLeft(calls, lower, undo);
    }

    /** The loop of audio_comp_stop, _pause, _shutdown and _release. */
    method TearDown(op: Op, none: int, answer: Answers) returns (ret: int)
      requires none == -ENOTTY || none == OK
      modifies this`calls
      ensures calls == old(calls) + Descending(lower, op, |lower|)
      ensures ret == TearDownAnswer(lower, op, answer, 0, none)
    {
      hide Descending, IfProvided, FirstFailure, FirstSupported;
      ret := none;
      var i: nat := |lower|;
      assert ret == TearDownAnswer(lower, op, answer, i, none);
      hide TearDownAnswer;
      while i > 0
        invariant i <= |lower| && calls + Descending(lower, op, i) == old(calls) + Descending(lower, op, |lower|)
        invariant ret == TearDownAnswer(lower, op, answer, i, none)
      {
        i := i - 1;
        TearDownStep(lower, op, answer, i, none);
        OneMoreDown(calls, lower, op, i);
        var provided := Invoke(op, i);
        if provided {
          var tmp := answer(i);
          if tmp != -ENOTTY {
            if tmp < 0 || ret == -ENOTTY || ret >= 0 {
              ret := tmp;
            }
          }
        }
      }
      NoneLeft(calls, lower, op);
    }

    method StartAll(answer: Answers) returns (ret: int)
      modifies this`calls
      ensures ret == BringUpAnswer(lower, Start, answer, -ENOTTY)
      ensures calls == old(calls) + BringUpCalls(lower, Start, Stop, answer)
    {
      ret := BringUp(Start, Stop, -ENOTTY, answer);
    }

    method ResumeAll(answer: Answers) returns (ret: int)
      modifies this`calls
      ensures ret == BringUpAnswer(lower, Resume, answer, -ENOTTY)
      ensures calls == old(calls) + BringUpCalls(lower, Resume, Pause, answer)
    {
      ret := BringUp(Resume, Pause, -ENOTTY, answer);
    }

    /** With several sessions, memory is whether there is memory for the array of sessions, and session whether
        the caller is given it; without, no memory is needed and memory is true. */
    method ReserveAll(answer: Answers, memory: bool) returns (ret: int, session: bool)
      modifies this`calls
      ensures !memory ==> ret == -ENOMEM && calls == old(calls)
      ensures memory ==>
                && ret == BringUpAnswer(lower, Reserve, answer, OK)
                && calls == old(calls) + BringUpCalls(lower, Reserve, Release, answer)
      ensures session <==> ret >= 0
      ensures session <==> memory && forall i: nat :: !Fails(lower, Reserve, answer, i)
    {
      hide BringUpCalls;
      if !memory {
        return -ENOMEM, false;
      }
      ret := BringUp(Reserve, Release, OK, answer);
      ReserveFails(lower, answer);
      session := ret >= 0;  // freed where the loop breaks off
    }

    method StopAll(answer: Answers) returns (ret: int)
      modifies this`calls
      ensures calls == old(calls) + Descending(lower, Stop, |lower|)
      ensures ret == TearDownAnswer(lower, Stop, answer, 0, -ENOTTY)
    {
      ret := TearDown(Stop, -ENOTTY, answer);
    }

    method PauseAll(answer: Answers) returns (ret: int)
      modifies this`calls
      ensures calls == old(calls) + Descending(lower, Pause, |lower|)
      ensures ret == TearDownAnswer(lower, Pause, answer, 0, -ENOTTY)
    {
      ret := TearDown(Pause, -ENOTTY, answer);
    }

    method ShutdownAll(answer: Answers) returns (ret: int)
      modifies this`calls
      ensures calls == old(calls) + Descending(lower, Shutdown, |lower|)
      ensures ret == TearDownAnswer(lower, Shutdown, answer, 0, -ENOTTY)
    {
      ret := TearDown(Shutdown, -ENOTTY, answer);
    }

    method ReleaseAll(answer: Answers) returns (ret: int)
      modifies this`calls
      ensures calls == old(calls) + Descending(lower, Release, |lower|)
      ensures ret == TearDownAnswer(lower, Release, answer, 0, OK)
    {
      ret := TearDown(Release, OK, answer);
    }
  }
}
