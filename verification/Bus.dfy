/** The one-way virtual bus and its sequence accounting (bus.rs). */
module Bus {
  import opened Prelude

  const U64: nat := 0x1_0000_0000_0000_0000

  datatype BusState = BusState(nextExpected: nat, counter: nat, open: bool, passed: nat, gaps: nat, kills: nat)

  datatype BusResult = Delivered | BusClosed | PayloadTooLarge(size: nat, max: nat) | SequenceGap(expected: nat, received: nat, gapSize: nat)

  const NEW: BusState := BusState(0, 0, true, 0, 0, 0)

  /** A payload is accepted even across a gap; the next number expected is the one after it, in 64 bits. */
  function Receive(max: nat, b: BusState, seqNo: nat, size: nat): (BusState, BusResult)
  {
    if !b.open then (b, BusClosed)
    else if size > max then (b, PayloadTooLarge(size, max))
    else
      var b1 := b.(nextExpected := (seqNo + 1) % U64, passed := b.passed + 1);
      if seqNo != b.nextExpected then
        (b1.(gaps := b.gaps + 1), SequenceGap(b.nextExpected, seqNo, SatSub(seqNo, b.nextExpected)))
      else (b1, Delivered)
  }

  class VirtualBus {
    const maxPayloadBytes: nat
    var nextExpected: nat
    var counter: nat
    var open: bool
    var passed: nat
    var gaps: nat
    var kills: nat

    ghost function State(): BusState
      reads this
    {
      BusState(nextExpected, counter, open, passed, gaps, kills)
    }

    constructor (maxPayloadBytes: nat)
      ensures State() == NEW && this.maxPayloadBytes == maxPayloadBytes
    {
      this.maxPayloadBytes := maxPayloadBytes;
      nextExpected, counter, open, passed, gaps, kills := 0, 0, true, 0, 0, 0;
    }

    method StampPayload() returns (seqNo: nat)
      modifies this
      ensures seqNo == old(counter) && State() == old(State()).(counter := (old(counter) + 1) % U64)
    {
      seqNo := counter;
      counter := (counter + 1) % U64;
    }

    method ReceivePayload(seqNo: nat, size: nat) returns (r: BusResult)
      modifies this
      ensures (State(), r) == Receive(maxPayloadBytes, old(State()), seqNo, size)
    {
      if !open { return BusClosed; }
      if size > maxPayloadBytes { return PayloadTooLarge(size, maxPayloadBytes); }
      var expected := nextExpected;
      if seqNo != expected {
        var gapSize := SatSub(seqNo, expected);
        gaps := gaps + 1;
        nextExpected := (seqNo + 1) % U64;
        passed := passed + 1;
        return SequenceGap(expected, seqNo, gapSize);
      }
      nextExpected := (seqNo + 1) % U64;
      passed := passed + 1;
      return Delivered;
    }

    method Shutdown()
      modifies this
      ensures State() == old(State()).(open := false, kills := old(kills) + 1)
    {
      open := false;
      kills := kills + 1;
    }

    method Reopen()
      modifies this
      ensures State() == old(State()).(open := true)
    {
      open := true;
    }
  }

  // ---------------------------------------------------------------- whole runs

  datatype Op = Stamp | ReceiveOp(seqNo: nat, size: nat) | Shutdown | Reopen

  /** A run as seen from outside: the bus, the numbers it accepted in order, and the gap sizes it reported, summed. */
  datatype Trace = Trace(bus: BusState, accepted: seq<nat>, missing: nat)

  function Step(max: nat, t: Trace, op: Op): Trace
  {
    match op
    case Stamp => t.(bus := t.bus.(counter := (t.bus.counter + 1) % U64))
    case Shutdown => t.(bus := t.bus.(open := false, kills := t.bus.kills + 1))
    case Reopen => t.(bus := t.bus.(open := true))
    case ReceiveOp(seqNo, size) =>
      var (b, r) := Receive(max, t.bus, seqNo, size);
      match r
      case Delivered => Trace(b, t.accepted + [seqNo], t.missing)
      case SequenceGap(_, received, gap) => Trace(b, t.accepted + [received], t.missing + gap)
      case _ => t.(bus := b)
  }

  function Run(max: nat, ops: seq<Op>): Trace
  {
    if ops == [] then Trace(NEW, [], 0) else Step(max, Run(max, ops[..|ops| - 1]), ops[|ops| - 1])
  }

  /** Sequence numbers are 64-bit. */
  ghost predicate Numbers64(ops: seq<Op>)
  {
    forall k | 0 <= k < |ops| && ops[k].ReceiveOp? :: ops[k].seqNo < U64
  }

  /** The number due after a sequence of accepted numbers. */
  function Due(accepted: seq<nat>): nat
  {
    if accepted == [] then 0 else (accepted[|accepted| - 1] + 1) % U64
  }

  /** How many of the accepted numbers were not the one due. */
  function Breaks(accepted: seq<nat>): nat
  {
    if accepted == [] then 0
    else
      var n := |accepted| - 1;
      Breaks(accepted[..n]) + (if accepted[n] != Due(accepted[..n]) then 1 else 0)
  }

  /** No number was out of turn exactly when they count up from zero. */
  lemma {:induction false} NoBreaksIff(s: seq<nat>)
    ensures Breaks(s) == 0 <==> forall i | 0 <= i < |s| :: s[i] == i % U64
  {
    if s != [] {
      var n := |s| - 1;
      NoBreaksIff(s[..n]);
      if n > 0 && s[n - 1] == (n - 1) % U64 {
        SuccessorModulo(n - 1);
      }
      assert s[..n] + [s[n]] == s;
    }
  }

  lemma SuccessorModulo(n: nat)
    ensures (n % U64 + 1) % U64 == (n + 1) % U64
  {
  }

  ghost predicate Accounted(t: Trace)
  {
    && t.bus.passed == |t.accepted| && t.bus.gaps == Breaks(t.accepted) && t.bus.nextExpected == Due(t.accepted)
    && (forall k | 0 <= k < |t.accepted| :: t.accepted[k] < U64)
  }

  lemma AcceptAccounts(t: Trace, max: nat, seqNo: nat, size: nat)
    requires Accounted(t) && seqNo < U64
    ensures Accounted(Step(max, t, ReceiveOp(seqNo, size)))
  {
    var s := t.accepted + [seqNo];
    assert s[..|t.accepted|] == t.accepted;
  }

  /** Over every run the counters are what the accepted numbers say; the gap counter is zero exactly when those
      numbers are 0, 1, 2, ... in turn. */
  lemma {:induction false} RunAccounts(max: nat, ops: seq<Op>)
    requires Numbers64(ops)
    ensures Accounted(Run(max, ops))
    ensures var t := Run(max, ops);
            t.bus.gaps == 0 <==> forall i | 0 <= i < |t.accepted| :: t.accepted[i] == i % U64
  {
    if ops != [] {
      var n := |ops| - 1;
      RunAccounts(max, ops[..n]);
      if ops[n].ReceiveOp? {
        AcceptAccounts(Run(max, ops[..n]), max, ops[n].seqNo, ops[n].size);
      }
    }
    NoBreaksIff(Run(max, ops).accepted);
  }

  ghost predicate Increasing(s: seq<nat>)
  {
    forall i, j | 0 <= i < j < |s| :: s[i] < s[j]
  }

  /** The passed and the missing numbers together are all the numbers up to the last accepted. */
  ghost predicate Complete(t: Trace)
  {
    t.bus.passed + t.missing == if t.accepted == [] then 0 else t.accepted[|t.accepted| - 1] + 1
  }

  lemma AcceptCompletes(t: Trace, max: nat, seqNo: nat, size: nat)
    requires Accounted(t) && Complete(t) && seqNo < U64 && t.bus.open && size <= max
    requires t.accepted == [] || t.accepted[|t.accepted| - 1] < seqNo
    ensures Complete(Step(max, t, ReceiveOp(seqNo, size)))
  {
    hide Breaks;
    assert t.bus.nextExpected == if t.accepted == [] then 0 else t.accepted[|t.accepted| - 1] + 1;
  }

  /** A step accepts at most its own number, and a step that accepts none leaves the totals alone. */
  lemma StepAccepts(max: nat, t: Trace, op: Op)
    ensures var t1 := Step(max, t, op);
            if op.ReceiveOp? && t.bus.open && op.size <= max then t1.accepted == t.accepted + [op.seqNo]
            else t1.accepted == t.accepted && (Complete(t) ==> Complete(t1))
  {
  }

  lemma {:induction false} RunCompletes(max: nat, ops: seq<Op>)
    requires Numbers64(ops) && Increasing(Run(max, ops).accepted)
    ensures Complete(Run(max, ops))
  {
    hide Breaks, Due, Step;
    if ops != [] {
      var n := |ops| - 1;
      var before, t := Run(max, ops[..n]), Run(max, ops);
      RunAccounts(max, ops[..n]);
      StepAccepts(max, before, ops[n]);
      hide Accounted, Complete, Run;
      assert forall k | 0 <= k < |before.accepted| :: before.accepted[k] == t.accepted[k];
      RunCompletes(max, ops[..n]);
      if ops[n].ReceiveOp? && before.bus.open && ops[n].size <= max {
        assert t.accepted[|before.accepted|] == ops[n].seqNo;
        AcceptCompletes(before, max, ops[n].seqNo, ops[n].size);
      }
    }
  }

  /**
   When numbers arrive in increasing order, those passed and those reported missing account for every number up to
   the last, so their total is the next number expected.
   */
  lemma NothingLostUnreported(max: nat, ops: seq<Op>)
    requires Numbers64(ops) && Increasing(Run(max, ops).accepted)
    ensures var t := Run(max, ops);
            && t.bus.passed + t.missing == (if t.accepted == [] then 0 else t.accepted[|t.accepted| - 1] + 1)
            && t.bus.nextExpected == (t.bus.passed + t.missing) % U64
  {
    hide Breaks, Run;
    RunAccounts(max, ops);
    RunCompletes(max, ops);
  }

  // ---------------------------------------------------------------- opening and closing

  /** The last switch of a run, if any. */
  function LastSwitch(ops: seq<Op>): Option<Op>
  {
    if ops == [] then None
    else if ops[|ops| - 1].Shutdown? || ops[|ops| - 1].Reopen? then Some(ops[|ops| - 1])
    else LastSwitch(ops[..|ops| - 1])
  }

  function Shutdowns(ops: seq<Op>): nat
  {
    if ops == [] then 0 else Shutdowns(ops[..|ops| - 1]) + (if ops[|ops| - 1].Shutdown? then 1 else 0)
  }

  /** The bus is closed exactly from a shutdown to the next reopening, and every shutdown is counted. */
  lemma {:induction false} OpenUnlessShutDown(max: nat, ops: seq<Op>)
    ensures Run(max, ops).bus.open <==> LastSwitch(ops) != Some(Shutdown)
    ensures Run(max, ops).bus.kills == Shutdowns(ops)
  {
    if ops != [] {
      OpenUnlessShutDown(max, ops[..|ops| - 1]);
    }
  }

  /** So a payload is accepted exactly when the last switch, if any, was a reopening and the payload fits. */
  lemma AcceptedIff(max: nat, ops: seq<Op>, seqNo: nat, size: nat)
    ensures Run(max, ops + [ReceiveOp(seqNo, size)]).accepted
            == Run(max, ops).accepted + (if LastSwitch(ops) != Some(Shutdown) && size <= max then [seqNo] else [])
    ensures LastSwitch(ops) == Some(Shutdown) || size > max ==> Run(max, ops + [ReceiveOp(seqNo, size)]) == Run(max, ops)
  {
    OpenUnlessShutDown(max, ops);
    assert (ops + [ReceiveOp(seqNo, size)])[..|ops|] == ops;
  }

  // ---------------------------------------------------------------- stamping and receiving

  /** The numbers stamped during a run, in order. */
  function Stamped(max: nat, ops: seq<Op>): seq<nat>
  {
    if ops == [] then []
    else
      var before := ops[..|ops| - 1];
      Stamped(max, before) + (if ops[|ops| - 1].Stamp? then [Run(max, before).bus.counter] else [])
  }

  /** The numbers presented for receipt during a run, in order. */
  function Presented(ops: seq<Op>): seq<nat>
  {
    if ops == [] then []
    else Presented(ops[..|ops| - 1]) + (if ops[|ops| - 1].ReceiveOp? then [ops[|ops| - 1].seqNo] else [])
  }

  /** No receipt of the run meets a closed bus or an oversize payload. */
  ghost predicate NoneRefused(max: nat, ops: seq<Op>)
  {
    forall k | 0 <= k < |ops| && ops[k].ReceiveOp? :: Run(max, ops[..k]).bus.open && ops[k].size <= max
  }

  ghost predicate CountsUp(s: seq<nat>)
  {
    forall i | 0 <= i < |s| :: s[i] == i % U64
  }

  /** Stamps count up from zero, whatever else happens. */
  lemma {:induction false} StampsCountUp(max: nat, ops: seq<Op>)
    ensures CountsUp(Stamped(max, ops))
    ensures Run(max, ops).bus.counter == |Stamped(max, ops)| % U64
  {
    if ops != [] {
      var n := |ops| - 1;
      StampsCountUp(max, ops[..n]);
      SuccessorModulo(|Stamped(max, ops[..n])|);
      hide Stamped, Run;
      StampStep(max, ops);
    }
  }

  lemma StampStep(max: nat, ops: seq<Op>)
    requires ops != []
    ensures var n := |ops| - 1;
            var t := Run(max, ops[..n]);
            && Stamped(max, ops) == Stamped(max, ops[..n]) + (if ops[n].Stamp? then [t.bus.counter] else [])
            && Run(max, ops).bus.counter == if ops[n].Stamp? then (t.bus.counter + 1) % U64 else t.bus.counter
  {
  }

  lemma AcceptInTurn(max: nat, t: Trace, seqNo: nat, size: nat)
    requires t.bus.open && size <= max && seqNo == t.bus.nextExpected
    ensures var t1 := Step(max, t, ReceiveOp(seqNo, size));
            && t1.accepted == t.accepted + [seqNo] && t1.bus.gaps == t.bus.gaps && t1.missing == t.missing
            && t1.bus.passed == t.bus.passed + 1 && t1.bus.nextExpected == (seqNo + 1) % U64
  {
  }

  lemma {:induction false} InTurnIsDelivered(max: nat, ops: seq<Op>)
    requires NoneRefused(max, ops) && CountsUp(Presented(ops))
    ensures var t := Run(max, ops);
            && t.accepted == Presented(ops) && t.bus.gaps == 0 && t.missing == 0
            && t.bus.passed == |t.accepted| && t.bus.nextExpected == |t.accepted| % U64
  {
    if ops != [] {
      var n := |ops| - 1;
      var before := ops[..n];
      assert Presented(before) == Presented(ops)[..|Presented(before)|];
      assert CountsUp(Presented(before)) by {
        forall i | 0 <= i < |Presented(before)| ensures Presented(before)[i] == i % U64 {
          assert Presented(ops)[i] == i % U64;
        }
      }
      forall k | 0 <= k < n && before[k].ReceiveOp?
        ensures Run(max, before[..k]).bus.open && before[k].size <= max
      {
        assert before[..k] == ops[..k] && before[k] == ops[k];
      }
      InTurnIsDelivered(max, before);
      if ops[n].ReceiveOp? {
        assert Presented(ops)[|Presented(before)|] == ops[n].seqNo;
        assert Run(max, ops[..n]).bus.open && ops[n].size <= max;
        SuccessorModulo(|Presented(before)|);
        AcceptInTurn(max, Run(max, before), ops[n].seqNo, ops[n].size);
        hide Receive, Step;
      }
    }
  }

  /**
   Payloads that are received once each in the order they were stamped, on an open bus and within its size, are all
   delivered: the bus reports no gap and has nothing missing.
   */
  lemma StampedInOrderIsDelivered(max: nat, ops: seq<Op>)
    requires NoneRefused(max, ops) && Presented(ops) <= Stamped(max, ops)
    ensures var t := Run(max, ops);
            t.accepted == Presented(ops) && t.bus.passed == |Presented(ops)| && t.bus.gaps == 0 && t.missing == 0
  {
    StampsCountUp(max, ops);
    InTurnIsDelivered(max, ops);
  }
}
