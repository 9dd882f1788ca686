/**
  FIFO matching in closed form. Lay the lots end to end in date order, and the matched
  part of the disposals end to end in date order: each event is one non-empty overlap
  of a lot's interval with a disposal's interval, and the events come in that order.
 */
module FifoClosedForm {
  import opened Sums
  import opened CostBasis
  import opened Draining
  import opened Optimality

  /** How much of lot i's interval [Supply(i), Supply(i+1)) lies in [from, to). */
  function Overlap(lots: seq<Lot>, i: nat, from: int, to: int): int
    requires i < |lots|
  {
    Min(Supply(lots, i + 1), to) - Max(Supply(lots, i), from)
  }

  function Overlaps(lots: seq<Lot>, i: nat, from: int, to: int, disp: nat): seq<Fill>
    requires i <= |lots|
    decreases |lots| - i
  {
    if i == |lots| then []
    else
      var rest := Overlaps(lots, i + 1, from, to, disp);
      var o := Overlap(lots, i, from, to);
      if o > 0 then [Fill(i, disp, o)] + rest else rest
  }

  /** Disposal j's interval runs from what was matched before it to what is matched with it. */
  function ClosedForm(lots: seq<Lot>, disps: seq<Disposal>): seq<Fill> {
    if disps == [] then []
    else
      var n := |disps| - 1;
      ClosedForm(lots, disps[..n]) + Overlaps(lots, 0, Best(lots, disps[..n], 0), Best(lots, disps, 0), n)
  }

  lemma {:induction false} NoOverlaps(lots: seq<Lot>, i: nat, from: int, to: int, disp: nat)
    requires i <= |lots| && (to <= from || to <= Supply(lots, i))
    ensures Overlaps(lots, i, from, to, disp) == []
    decreases |lots| - i
  {
    if i < |lots| {
      HeldGrows(Amounts(lots), i, i + 1);
      NoOverlaps(lots, i + 1, from, to, disp);
    }
  }

  /** Where an interval starts matters only from the lot it starts in. */
  lemma {:induction false} OverlapsFromEarlier(lots: seq<Lot>, i: nat, from: int, from': int, to: int, disp: nat)
    requires i <= |lots| && from <= Supply(lots, i) && from' <= Supply(lots, i)
    ensures Overlaps(lots, i, from, to, disp) == Overlaps(lots, i, from', to, disp)
    decreases |lots| - i
  {
    if i < |lots| {
      HeldGrows(Amounts(lots), i, i + 1);
      OverlapsFromEarlier(lots, i + 1, from, from', to, disp);
    }
  }

  /** After `matched` satoshis, each lot from `lo` on has left what lies beyond them. */
  ghost predicate LeftBeyond(lots: seq<Lot>, rem: seq<int>, lo: nat, matched: int) {
    && |rem| == |lots|
    && forall k :: lo <= k < |lots| ==>
      Pos(rem[k]) == Pos(Supply(lots, k + 1) - matched) - Pos(Supply(lots, k) - matched)
  }

  lemma LeftBeyondNext(lots: seq<Lot>, rem: seq<int>, lo: nat, matched: int, c: int)
    requires lo < |lots| && LeftBeyond(lots, rem, lo, matched)
    requires c == 0 <= matched - Supply(lots, lo + 1) || (c > 0 && matched + c == Supply(lots, lo + 1))
    ensures LeftBeyond(lots, rem[lo := rem[lo] - c], lo + 1, matched + c)
  {
    forall k | lo + 1 <= k < |lots|
      ensures Pos(rem[k]) == Pos(Supply(lots, k + 1) - (matched + c)) - Pos(Supply(lots, k) - (matched + c))
    {
      HeldGrows(Amounts(lots), lo + 1, k);
      HeldGrows(Amounts(lots), k, k + 1);
    }
  }

  /** Draining the lots from `lo` on, with everything before them used up, yields the overlaps. */
  lemma {:induction false} DrainYieldsOverlaps(lots: seq<Lot>, rem: seq<int>, lo: nat, hi: nat, need: int, disp: nat,
                                               matched: int)
    requires lo <= hi <= |lots| && LeftBeyond(lots, rem, lo, matched)
    requires matched >= Supply(lots, lo) && need >= 0
    ensures Drain(rem, OpenUp(rem, lo, hi), need, disp).fills
         == Overlaps(lots, lo, matched, Min(matched + need, Supply(lots, hi)), disp)
    decreases hi - lo
  {
    var to := Min(matched + need, Supply(lots, hi));
    if lo == hi || need == 0 {
      NoOverlaps(lots, lo, matched, to, disp);
    } else {
      HeldGrows(Amounts(lots), lo + 1, hi);
      assert Pos(rem[lo]) == Pos(Supply(lots, lo + 1) - matched);
      if rem[lo] <= 0 {
        LeftBeyondNext(lots, rem, lo, matched, 0);
        assert rem[lo := rem[lo] - 0] == rem;
        DrainYieldsOverlaps(lots, rem, lo + 1, hi, need, disp, matched);
      } else {
        if need <= rem[lo] {
          DrainEndsInLot(lots, rem, lo, hi, need, disp, matched);
        } else {
          DrainPassesLot(lots, rem, lo, hi, need, disp, matched);
        }
      }
    }
  }

  /** The lot in which the disposal ends. */
  lemma DrainEndsInLot(lots: seq<Lot>, rem: seq<int>, lo: nat, hi: nat, need: int, disp: nat, matched: int)
    requires lo < hi <= |lots| && |rem| == |lots| && rem[lo] == Supply(lots, lo + 1) - matched
    requires matched >= Supply(lots, lo) && 0 < need <= rem[lo]
    ensures Drain(rem, OpenUp(rem, lo, hi), need, disp).fills
         == Overlaps(lots, lo, matched, Min(matched + need, Supply(lots, hi)), disp)
  {
    HeldGrows(Amounts(lots), lo + 1, hi);
    NoOverlaps(lots, lo + 1, matched, matched + need, disp);
    DrainUpHead(rem, lo, hi, need, disp, need, rem[lo := rem[lo] - need]);
    assert Overlap(lots, lo, matched, matched + need) == need;
  }

  lemma OverlapOfWholeRest(lots: seq<Lot>, lo: nat, hi: nat, need: int, disp: nat, matched: int, c: int)
    requires lo < hi <= |lots| && c == Supply(lots, lo + 1) - matched
    requires matched >= Supply(lots, lo) && 0 < c < need
    ensures var to := Min(matched + need, Supply(lots, hi));
      Overlaps(lots, lo, matched, to, disp) == [Fill(lo, disp, c)] + Overlaps(lots, lo + 1, matched + c, to, disp)
  {
    var to := Min(matched + need, Supply(lots, hi));
    HeldGrows(Amounts(lots), lo + 1, hi);
    assert Overlap(lots, lo, matched, to) == c;
    OverlapsFromEarlier(lots, lo + 1, matched, matched + c, to, disp);
  }

  /** A lot the disposal uses up and leaves behind. */
  lemma {:induction false} DrainPassesLot(lots: seq<Lot>, rem: seq<int>, lo: nat, hi: nat, need: int, disp: nat,
                                          matched: int)
    requires lo < hi <= |lots| && LeftBeyond(lots, rem, lo, matched)
    requires rem[lo] == Supply(lots, lo + 1) - matched
    requires matched >= Supply(lots, lo) && 0 < rem[lo] < need
    ensures Drain(rem, OpenUp(rem, lo, hi), need, disp).fills
         == Overlaps(lots, lo, matched, Min(matched + need, Supply(lots, hi)), disp)
    decreases hi - lo, 0
  {
    var c := rem[lo];
    var rem' := rem[lo := rem[lo] - c];
    OverlapOfWholeRest(lots, lo, hi, need, disp, matched, c);
    LeftBeyondNext(lots, rem, lo, matched, c);
    assert matched + c + (need - c) == matched + need;
    DrainYieldsOverlaps(lots, rem', lo + 1, hi, need - c, disp, matched + c);
    DrainUpHead(rem, lo, hi, need, disp, c, rem');
  }

  lemma FifoLeavesBeyond(lots: seq<Lot>, disps: seq<Disposal>)
    requires Sorted(lots, disps)
    ensures LeftBeyond(lots, Run(Fifo, lots, disps).rem, 0, Best(lots, disps, 0))
  {
    var rem := Run(Fifo, lots, disps).rem;
    forall k | 0 <= k < |lots|
      ensures Pos(rem[k])
           == Pos(Supply(lots, k + 1) - Best(lots, disps, 0)) - Pos(Supply(lots, k) - Best(lots, disps, 0))
    {
      FifoTakesOldest(lots, disps, k);
      FifoTakesOldest(lots, disps, k + 1);
    }
  }

  lemma FifoStepIsOverlaps(lots: seq<Lot>, s: State, d: Disposal, disp: nat, matched: nat)
    requires SortedOn(lots, LOT_DATE) && LeftBeyond(lots, s.rem, 0, matched)
    ensures var p := Eligible(lots, d.disposedAt);
      var to := Min(matched + Pos(d.amountSat), Supply(lots, p));
      Step(Fifo, lots, s, d, disp).fills == s.fills + Overlaps(lots, 0, matched, to, disp)
  {
    var p := Eligible(lots, d.disposedAt);
    OrderIsWalk(Fifo, lots, s.rem, d.disposedAt);
    if d.amountSat > 0 {
      DrainYieldsOverlaps(lots, s.rem, 0, p, d.amountSat, disp, matched);
    } else {
      NoOverlaps(lots, 0, matched, Min(matched + 0, Supply(lots, p)), disp);
    }
  }

  /** The events of FIFO are exactly the non-empty overlaps, in order. */
  lemma {:induction false} FifoIsClosedForm(lots: seq<Lot>, disps: seq<Disposal>)
    requires Sorted(lots, disps)
    ensures Run(Fifo, lots, disps).fills == ClosedForm(lots, disps)
  {
    if disps != [] {
      var n := |disps| - 1;
      SortedPrefix(lots, disps);
      FifoIsClosedForm(lots, disps[..n]);
      FifoLeavesBeyond(lots, disps[..n]);
      var matched := Best(lots, disps[..n], 0);
      var p := Eligible(lots, disps[n].disposedAt);
      FifoStepIsOverlaps(lots, Run(Fifo, lots, disps[..n]), disps[n], n, matched);
      assert Best(lots, disps, 0) == Min(matched + Pos(disps[n].amountSat), Supply(lots, p));
    }
  }
}
