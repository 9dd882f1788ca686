/**
  LIFO matching is a stack machine. Merging lots and disposals by date, pushing each lot
  and popping for each disposal, gives exactly the events of rebuilding and reversing
  the candidate list for every disposal.
 */
module LifoStack {
  import opened Sums
  import opened CostBasis
  import opened Draining
  import opened Optimality

  datatype Slot = Slot(lot: nat, left: int)

  /** The newest open lot is on top, at the front of `stack`; `next` is the first lot not yet pushed. */
  datatype Machine = Machine(next: nat, stack: seq<Slot>, fills: seq<Fill>, unmatched: int)

  datatype Popped = Popped(stack: seq<Slot>, fills: seq<Fill>, left: int)

  /** Pushes the lots dated on or before `at`; a lot of no positive size is not worth pushing. */
  function PushUntil(lots: seq<Lot>, next: nat, stack: seq<Slot>, at: int): (r: (nat, seq<Slot>))
    requires next <= |lots|
    ensures next <= r.0 <= |lots|
    decreases |lots| - next
  {
    if next < |lots| && lots[next].acquiredAt <= at then
      var amount := lots[next].amountSat;
      PushUntil(lots, next + 1, if amount > 0 then [Slot(next, amount)] + stack else stack, at)
    else (next, stack)
  }

  function Pop(stack: seq<Slot>, need: int, disp: nat): Popped {
    if stack == [] || need <= 0 then Popped(stack, [], need)
    else
      var top := stack[0];
      if top.left <= need then
        var r := Pop(stack[1..], need - top.left, disp);
        Popped(r.stack, [Fill(top.lot, disp, top.left)] + r.fills, r.left)
      else Popped([Slot(top.lot, top.left - need)] + stack[1..], [Fill(top.lot, disp, need)], 0)
  }

  lemma {:induction false} PushUntilStops(lots: seq<Lot>, next: nat, stack: seq<Slot>, at: int)
    requires SortedOn(lots, LOT_DATE) && next <= |lots|
    ensures PushUntil(lots, next, stack, at).0 == Max(next, Eligible(lots, at))
    decreases |lots| - next
  {
    EligibleIsPrefix(lots, at);
    if next < |lots| && lots[next].acquiredAt <= at {
      var amount := lots[next].amountSat;
      PushUntilStops(lots, next + 1, if amount > 0 then [Slot(next, amount)] + stack else stack, at);
    }
  }

  function StackStep(lots: seq<Lot>, s: Machine, d: Disposal, disp: nat): (s': Machine)
    requires s.next <= |lots|
    ensures s'.next <= |lots|
  {
    var (next, stack) := PushUntil(lots, s.next, s.stack, d.disposedAt);
    var r := Pop(stack, d.amountSat, disp);
    Machine(next, r.stack, s.fills + r.fills, s.unmatched + Pos(r.left))
  }

  function RunStack(lots: seq<Lot>, disps: seq<Disposal>): (s: Machine)
    ensures s.next <= |lots|
  {
    if disps == [] then Machine(0, [], [], 0)
    else
      var n := |disps| - 1;
      StackStep(lots, RunStack(lots, disps[..n]), disps[n], n)
  }

  // ----- what the stack stands for -----

  /** The open lots below `hi`, newest first, with what is left of each. */
  function SlotsDown(rem: seq<int>, hi: nat): seq<Slot>
    requires hi <= |rem|
  {
    if hi == 0 then []
    else
      var rest := SlotsDown(rem, hi - 1);
      if rem[hi - 1] > 0 then [Slot(hi - 1, rem[hi - 1])] + rest else rest
  }

  lemma {:induction false} SlotsFrame(a: seq<int>, b: seq<int>, hi: nat)
    requires hi <= |a| == |b| && forall i :: 0 <= i < hi ==> a[i] == b[i]
    ensures SlotsDown(a, hi) == SlotsDown(b, hi)
  {
    if hi > 0 {
      SlotsFrame(a, b, hi - 1);
    }
  }

  lemma {:induction false} PushExtendsSlots(lots: seq<Lot>, rem: seq<int>, next: nat, at: int)
    requires |rem| == |lots| && next <= |lots| && rem[next..] == Amounts(lots)[next..]
    ensures var (next', stack) := PushUntil(lots, next, SlotsDown(rem, next), at);
      next' <= |lots| && stack == SlotsDown(rem, next')
    decreases |lots| - next
  {
    if next < |lots| && lots[next].acquiredAt <= at {
      assert rem[next] == rem[next..][0] == Amounts(lots)[next..][0] == lots[next].amountSat;
      assert rem[next + 1..] == rem[next..][1..] == Amounts(lots)[next + 1..];
      PushExtendsSlots(lots, rem, next + 1, at);
    }
  }

  /** Popping the stack is draining the newest open lots. */
  lemma {:induction false} PopIsDrain(rem: seq<int>, hi: nat, need: int, disp: nat)
    requires hi <= |rem|
    ensures var d := Drain(rem, OpenDown(rem, hi), need, disp);
      var r := Pop(SlotsDown(rem, hi), need, disp);
      r.stack == SlotsDown(d.rem, hi) && r.fills == d.fills && r.left == d.left
    decreases hi, 0
  {
    if need > 0 && hi > 0 {
      var i := hi - 1;
      if rem[i] <= 0 {
        PopIsDrain(rem, i, need, disp);
        PopSkips(rem, i, need, disp);
      } else {
        PopTakes(rem, i, need, disp);
      }
    }
  }

  lemma PopSkips(rem: seq<int>, i: nat, need: int, disp: nat)
    requires i < |rem| && rem[i] <= 0
    ensures SlotsDown(Drain(rem, OpenDown(rem, i + 1), need, disp).rem, i + 1)
         == SlotsDown(Drain(rem, OpenDown(rem, i), need, disp).rem, i)
  {
    var d := Drain(rem, OpenDown(rem, i), need, disp);
    DrainWalksDown(rem, i, need, disp);
    WalkDownFrame(rem, i, need);
    assert d.rem[i] == d.rem[i..][0] == rem[i..][0];
  }

  lemma {:induction false} PopTakes(rem: seq<int>, i: nat, need: int, disp: nat)
    requires i < |rem| && rem[i] > 0 && need > 0
    ensures var d := Drain(rem, OpenDown(rem, i + 1), need, disp);
      var r := Pop(SlotsDown(rem, i + 1), need, disp);
      r.stack == SlotsDown(d.rem, i + 1) && r.fills == d.fills && r.left == d.left
    decreases i, 1
  {
    var c := Min(rem[i], need);
    var rem' := rem[i := rem[i] - c];
    var rest := OpenDown(rem', i);
    OpenDownFrame(rem, rem', i);
    SlotsFrame(rem, rem', i);
    DrainHead(rem, i, rest, need, disp);
    var d := Drain(rem', rest, need - c, disp);
    assert Drain(rem, OpenDown(rem, i + 1), need, disp) == d.After([Fill(i, disp, c)]);
    var slots := SlotsDown(rem, i + 1);
    assert slots == [Slot(i, rem[i])] + SlotsDown(rem', i);
    assert slots[1..] == SlotsDown(rem', i);
    DrainWalksDown(rem', i, need - c, disp);
    WalkDownFrame(rem', i, need - c);
    assert d.rem[i] == d.rem[i..][0] == rem'[i..][0];
    if rem[i] <= need {
      PopIsDrain(rem', i, need - c, disp);
    } else {
      assert d == Drained(rem', [], 0);
    }
  }

  /** The machine's stack holds exactly the open lots below `next`; later lots are untouched. */
  ghost predicate Represents(lots: seq<Lot>, t: Machine, s: State) {
    && |s.rem| == |lots| && t.next <= |lots|
    && t.fills == s.fills && t.unmatched == s.unmatched
    && s.rem[t.next..] == Amounts(lots)[t.next..]
    && t.stack == SlotsDown(s.rem, t.next)
  }

  lemma StackStepRepresents(lots: seq<Lot>, t: Machine, s: State, d: Disposal, disp: nat)
    requires SortedOn(lots, LOT_DATE) && Represents(lots, t, s)
    requires t.next <= Eligible(lots, d.disposedAt)
    ensures Represents(lots, StackStep(lots, t, d, disp), Step(Lifo, lots, s, d, disp))
    ensures StackStep(lots, t, d, disp).next == Eligible(lots, d.disposedAt)
  {
    var p := Eligible(lots, d.disposedAt);
    PushUntilStops(lots, t.next, t.stack, d.disposedAt);
    PushExtendsSlots(lots, s.rem, t.next, d.disposedAt);
    OrderIsWalk(Lifo, lots, s.rem, d.disposedAt);
    PopIsDrain(s.rem, p, d.amountSat, disp);
    StepFrame(Lifo, lots, s, d, disp);
    assert s.rem[p..] == s.rem[t.next..][p - t.next..] == Amounts(lots)[p..];
  }

  /** The stack machine and the matcher produce the same events in the same order. */
  lemma {:induction false} LifoIsStackMachine(lots: seq<Lot>, disps: seq<Disposal>)
    requires Sorted(lots, disps)
    ensures Represents(lots, RunStack(lots, disps), Run(Lifo, lots, disps))
    ensures RunStack(lots, disps).next == if disps == [] then 0 else Eligible(lots, disps[|disps| - 1].disposedAt)
  {
    if disps != [] {
      var n := |disps| - 1;
      SortedPrefix(lots, disps);
      LifoIsStackMachine(lots, disps[..n]);
      if n > 0 {
        EligibleMonotone(lots, disps[n - 1].disposedAt, disps[n].disposedAt);
      }
      StackStepRepresents(lots, RunStack(lots, disps[..n]), Run(Lifo, lots, disps[..n]), disps[n], n);
    }
  }
}
