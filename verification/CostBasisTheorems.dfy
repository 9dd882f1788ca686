/**
  The promises of the cost-basis matcher over whole runs: conservation, optimality,
  independence of the method and of how ties are sorted, and FIFO and LIFO as the
  two extremes among all ways of matching.
 */
module CostBasisTheorems {
  import opened Sums
  import opened CostBasis
  import opened Draining
  import opened Optimality

  // ----- the matcher's own events, as an assignment -----

  function AmountOf(fills: seq<Fill>, i: nat, j: nat): int {
    if fills == [] then 0
    else (if fills[0].lot == i && fills[0].disp == j then fills[0].sats else 0) + AmountOf(fills[1..], i, j)
  }

  function TakenFrom(fills: seq<Fill>, i: nat): int {
    TakenBelow(fills, i + 1) - TakenBelow(fills, i)
  }

  /**
    Conservation: over the k oldest lots, the amounts of all events add up to exactly what the
    lots lost, no positive lot is overdrawn, and lots of zero or negative size are never touched.
   */
  lemma {:induction false} EventsTakeWhatLotsLose(m: Method, lots: seq<Lot>, disps: seq<Disposal>, k: nat)
    requires k <= |lots|
    ensures var s := Run(m, lots, disps);
      && TakenBelow(s.fills, k) == Taken(lots, s.rem, k)
      && forall i :: 0 <= i < |lots| ==> Min(0, lots[i].amountSat) <= s.rem[i] <= lots[i].amountSat
  {
    if disps != [] {
      var n := |disps| - 1;
      EventsTakeWhatLotsLose(m, lots, disps[..n], k);
      var s := Run(m, lots, disps[..n]);
      var order := Order(m, lots, s.rem, disps[n].disposedAt);
      DrainConserves(s.rem, order, disps[n].amountSat, n, k);
      TakenBelowConcat(s.fills, Drain(s.rem, order, disps[n].amountSat, n).fills, k);
    }
  }

  lemma LotConserved(m: Method, lots: seq<Lot>, disps: seq<Disposal>, i: nat)
    requires i < |lots|
    ensures var s := Run(m, lots, disps);
      TakenFrom(s.fills, i) + s.rem[i] == lots[i].amountSat
  {
    EventsTakeWhatLotsLose(m, lots, disps, i);
    EventsTakeWhatLotsLose(m, lots, disps, i + 1);
  }

  // ----- optimality and independence of the method -----

  /** FIFO and LIFO leave the same amount unmatched and match the same total for every disposal. */
  lemma MethodIndependence(lots: seq<Lot>, disps: seq<Disposal>, n: nat)
    requires Sorted(lots, disps) && n <= |disps|
    ensures Run(Fifo, lots, disps).unmatched == Run(Lifo, lots, disps).unmatched
    ensures TakenBelow(Run(Fifo, lots, disps[..n]).fills, |lots|)
         == TakenBelow(Run(Lifo, lots, disps[..n]).fills, |lots|)
         == Best(lots, disps[..n], 0)
  {
    MatchedPlusUnmatched(Fifo, lots, disps);
    MatchedPlusUnmatched(Lifo, lots, disps);
    BothMatchBest(Fifo, lots, disps[..n]);
    BothMatchBest(Lifo, lots, disps[..n]);
    EventsTakeWhatLotsLose(Fifo, lots, disps[..n], |lots|);
    EventsTakeWhatLotsLose(Lifo, lots, disps[..n], |lots|);
  }

  /** No assignment that respects lot sizes and dates matches more than the matcher does. */
  lemma MatcherIsOptimal(m: Method, lots: seq<Lot>, disps: seq<Disposal>, x: Assignment, n: nat)
    requires m == Fifo || m == Lifo
    requires Sorted(lots, disps) && n <= |disps| && Feasible(x, lots, disps)
    ensures Total(x, n, |lots|) <= TakenBelow(Run(m, lots, disps[..n]).fills, |lots|)
  {
    NoAssignmentBeatsBest(x, lots, disps, n, 0);
    TotalOfNothing(x, n);
    BothMatchBest(m, lots, disps[..n]);
    EventsTakeWhatLotsLose(m, lots, disps[..n], |lots|);
  }

  /**
    The extremes: after any number n of disposals and for every cut k of the date-sorted lots,
    among all feasible assignments that match the same total, FIFO takes most from the k oldest
    lots (everything matched, up to what they hold) and LIFO takes least.
   */
  lemma Extremes(lots: seq<Lot>, disps: seq<Disposal>, x: Assignment, n: nat, k: nat)
    requires Sorted(lots, disps) && n <= |disps| && k <= |lots| && Feasible(x, lots, disps)
    requires Total(x, n, |lots|) == TakenBelow(Run(Fifo, lots, disps[..n]).fills, |lots|)
    ensures TakenBelow(Run(Lifo, lots, disps[..n]).fills, k) <= Total(x, n, k)
         <= TakenBelow(Run(Fifo, lots, disps[..n]).fills, k)
         == Min(TakenBelow(Run(Fifo, lots, disps[..n]).fills, |lots|), Supply(lots, k))
  {
    FifoTakesOldest(lots, disps[..n], k);
    EventsTakeWhatLotsLose(Fifo, lots, disps[..n], k);
    EventsTakeWhatLotsLose(Lifo, lots, disps[..n], k);
    MethodIndependence(lots, disps, n);
    // Upper bound: no assignment takes more than the k lots hold, nor more than its own total.
    TotalWithinLots(x, lots, disps, n, k);
    TotalGrows(x, n, k, |lots|);
    // Lower bound: LIFO leaves the k oldest lots the least, because it takes the best suffix.
    LifoTakesBestSuffix(lots, disps[..n], k);
    EventsTakeWhatLotsLose(Lifo, lots, disps[..n], |lots|);
    NoAssignmentBeatsBest(x, lots, disps, n, k);
  }

  lemma {:induction false} TotalWithinLots(x: Assignment, lots: seq<Lot>, disps: seq<Disposal>, n: nat, k: nat)
    requires Sorted(lots, disps) && n <= |disps| && k <= |lots| && Feasible(x, lots, disps)
    ensures Total(x, n, k) <= Supply(lots, k)
  {
    if k == 0 {
      TotalOfNothing(x, n);
    } else {
      TotalByRow(x, n, k - 1);
      TotalWithinLots(x, lots, disps, n, k - 1);
      RowGrows(x, k - 1, n, |disps|);
    }
  }

  lemma {:induction false} TotalGrows(x: Assignment, n: nat, lo: nat, hi: nat)
    requires lo <= hi
    ensures Total(x, n, lo) <= Total(x, n, hi)
  {
    if n > 0 {
      TotalGrows(x, n - 1, lo, hi);
      ColumnGrows(x, n - 1, lo, hi);
    }
  }

  // ----- the matcher is itself one of the feasible assignments -----

  function AssignmentOf(fills: seq<Fill>): Assignment {
    (i, j) => Pos(AmountOf(fills, i, j))
  }

  ghost predicate AllPositive(fills: seq<Fill>) {
    forall f :: f in fills ==> f.sats > 0
  }

  /** A positive amount for (i, j) means some event matches lot i to disposal j. */
  lemma {:induction false} AmountNeedsFill(fills: seq<Fill>, i: nat, j: nat)
    requires AllPositive(fills)
    ensures AmountOf(fills, i, j) >= 0
    ensures AmountOf(fills, i, j) > 0 ==> exists f :: f in fills && f.lot == i && f.disp == j
  {
    if fills != [] {
      assert AllPositive(fills[1..]);
      AmountNeedsFill(fills[1..], i, j);
      if fills[0].lot == i && fills[0].disp == j {
        assert fills[0] in fills;
      } else if f :| f in fills[1..] && f.lot == i && f.disp == j {
        assert f in fills;
      }
    }
  }

  /** Rows of the assignment are what the events take from the lot. */
  lemma {:induction false} RowIsTaken(fills: seq<Fill>, i: nat, n: nat)
    requires AllPositive(fills) && forall f :: f in fills ==> f.disp < n
    ensures Row(AssignmentOf(fills), i, n) == TakenFrom(fills, i)
  {
    if fills == [] {
      RowZero(AssignmentOf(fills), i, n);
    } else {
      RowOfFirst(fills, i, n);
      RowIsTaken(fills[1..], i, n);
    }
  }

  lemma {:induction false} RowOfFirst(fills: seq<Fill>, i: nat, n: nat)
    requires fills != [] && AllPositive(fills)
    ensures Row(AssignmentOf(fills), i, n)
         == Row(AssignmentOf(fills[1..]), i, n)
            + if fills[0].lot == i && fills[0].disp < n then fills[0].sats else 0
  {
    if n > 0 {
      RowOfFirst(fills, i, n - 1);
      AmountNeedsFill(fills[1..], i, n - 1);
      assert fills[0].sats > 0;
    }
  }

  /** Columns of the assignment are what the events of one disposal add up to. */
  lemma {:induction false} ColumnOfFirst(fills: seq<Fill>, j: nat, k: nat)
    requires fills != [] && AllPositive(fills)
    ensures Column(AssignmentOf(fills), j, k)
         == Column(AssignmentOf(fills[1..]), j, k)
            + if fills[0].lot < k && fills[0].disp == j then fills[0].sats else 0
  {
    if k > 0 {
      ColumnOfFirst(fills, j, k - 1);
      AmountNeedsFill(fills[1..], k - 1, j);
      assert fills[0].sats > 0;
    }
  }

  lemma {:induction false} ColumnEmpty(j: nat, k: nat)
    ensures Column(AssignmentOf([]), j, k) == 0
  {
    if k > 0 {
      ColumnEmpty(j, k - 1);
    }
  }

  lemma {:induction false} ColumnConcat(a: seq<Fill>, b: seq<Fill>, j: nat, k: nat)
    requires AllPositive(a) && AllPositive(b)
    ensures Column(AssignmentOf(a + b), j, k) == Column(AssignmentOf(a), j, k) + Column(AssignmentOf(b), j, k)
  {
    if a == [] {
      assert a + b == b;
      ColumnEmpty(j, k);
    } else {
      assert (a + b)[1..] == a[1..] + b;
      ColumnConcat(a[1..], b, j, k);
      ColumnOfFirst(a + b, j, k);
      ColumnOfFirst(a, j, k);
    }
  }

  lemma {:induction false} ColumnOfDisposal(fills: seq<Fill>, disp: nat, j: nat, k: nat)
    requires AllPositive(fills) && forall f :: f in fills ==> f.disp == disp
    ensures Column(AssignmentOf(fills), j, k) == if j == disp then TakenBelow(fills, k) else 0
  {
    if fills == [] {
      ColumnEmpty(j, k);
    } else {
      ColumnOfFirst(fills, j, k);
      assert fills[0] in fills;
      ColumnOfDisposal(fills[1..], disp, j, k);
    }
  }

  /** A drain never takes more than it was asked for. */
  lemma {:induction false} DrainWithinNeed(rem: seq<int>, order: seq<nat>, need: int, disp: nat, k: nat)
    ensures TakenBelow(Drain(rem, order, need, disp).fills, k) <= Pos(need)
    decreases |order|
  {
    if order != [] && need > 0 {
      var i := order[0];
      if i >= |rem| || rem[i] <= 0 {
        DrainWithinNeed(rem, order[1..], need, disp, k);
      } else {
        var c := Min(rem[i], need);
        DrainWithinNeed(rem[i := rem[i] - c], order[1..], need - c, disp, k);
        var rest := Drain(rem[i := rem[i] - c], order[1..], need - c, disp).fills;
        assert ([Fill(i, disp, c)] + rest)[1..] == rest;
      }
    }
  }

  lemma {:induction false} RunColumn(m: Method, lots: seq<Lot>, disps: seq<Disposal>, j: nat)
    requires j < |disps|
    ensures Column(AssignmentOf(Run(m, lots, disps).fills), j, |lots|) <= Pos(disps[j].amountSat)
  {
    var n := |disps| - 1;
    var s := Run(m, lots, disps[..n]);
    var order := Order(m, lots, s.rem, disps[n].disposedAt);
    var d := Drain(s.rem, order, disps[n].amountSat, n);
    RunFillsInRange(m, lots, disps[..n]);
    DrainFillsInRange(s.rem, order, disps[n].amountSat, n);
    ColumnConcat(s.fills, d.fills, j, |lots|);
    ColumnOfDisposal(d.fills, n, j, |lots|);
    if j < n {
      RunColumn(m, lots, disps[..n], j);
    } else {
      ColumnUnused(s.fills, j, |lots|);
      DrainWithinNeed(s.rem, order, disps[n].amountSat, n, |lots|);
    }
  }

  lemma {:induction false} ColumnUnused(fills: seq<Fill>, j: nat, k: nat)
    requires AllPositive(fills) && forall f :: f in fills ==> f.disp != j
    ensures Column(AssignmentOf(fills), j, k) == 0
  {
    if k > 0 {
      ColumnUnused(fills, j, k - 1);
      AmountNeedsFill(fills, k - 1, j);
    }
  }

  ghost predicate OrderDated(lots: seq<Lot>, order: seq<nat>, at: int) {
    forall q :: 0 <= q < |order| ==> order[q] < |lots| && lots[order[q]].acquiredAt <= at
  }

  lemma {:induction false} CandidatesDated(lots: seq<Lot>, rem: seq<int>, at: int, i: nat)
    requires |rem| == |lots| && i <= |lots|
    ensures OrderDated(lots, CandidatesFrom(lots, rem, at, i), at)
    decreases |lots| - i
  {
    if i < |lots| {
      CandidatesDated(lots, rem, at, i + 1);
    }
  }

  lemma {:induction false} DrainDated(lots: seq<Lot>, rem: seq<int>, order: seq<nat>, need: int, disp: nat, at: int)
    requires |rem| == |lots| && OrderDated(lots, order, at)
    ensures forall f :: f in Drain(rem, order, need, disp).fills ==> f.lot < |lots| && lots[f.lot].acquiredAt <= at
    decreases |order|
  {
    if order != [] && need > 0 {
      var i := order[0];
      if i >= |rem| || rem[i] <= 0 {
        DrainDated(lots, rem, order[1..], need, disp, at);
      } else {
        var c := Min(rem[i], need);
        DrainDated(lots, rem[i := rem[i] - c], order[1..], need - c, disp, at);
      }
    }
  }

  lemma StepFillsDated(m: Method, lots: seq<Lot>, rem: seq<int>, d: Disposal, disp: nat)
    requires |rem| == |lots|
    ensures forall f :: f in Drain(rem, Order(m, lots, rem, d.disposedAt), d.amountSat, disp).fills ==>
      f.lot < |lots| && f.disp == disp && lots[f.lot].acquiredAt <= d.disposedAt
  {
    var order := Order(m, lots, rem, d.disposedAt);
    DrainFillsInRange(rem, order, d.amountSat, disp);
    CandidatesDated(lots, rem, d.disposedAt, 0);
    DrainDated(lots, rem, order, d.amountSat, disp, d.disposedAt);
  }

  /** Every event respects the dates: its lot was acquired on or before its disposal. */
  lemma {:induction false} FillsRespectDates(m: Method, lots: seq<Lot>, disps: seq<Disposal>)
    ensures FillsInRange(Run(m, lots, disps).fills, |lots|, |disps|)
    ensures forall f :: f in Run(m, lots, disps).fills ==> lots[f.lot].acquiredAt <= disps[f.disp].disposedAt
  {
    RunFillsInRange(m, lots, disps);
    if disps != [] {
      var n := |disps| - 1;
      var s := Run(m, lots, disps[..n]);
      FillsRespectDates(m, lots, disps[..n]);
      StepFillsDated(m, lots, s.rem, disps[n], n);
    }
  }

  lemma ColumnOfSteps(earlier: seq<Fill>, fills: seq<Fill>, n: nat, j: nat, k: nat)
    requires AllPositive(earlier) && AllPositive(fills) && j <= n
    requires (forall f :: f in earlier ==> f.disp < n) && forall f :: f in fills ==> f.disp == n
    ensures Column(AssignmentOf(earlier + fills), j, k)
         == if j < n then Column(AssignmentOf(earlier), j, k) else TakenBelow(fills, k)
  {
    ColumnConcat(earlier, fills, j, k);
    ColumnOfDisposal(fills, n, j, k);
    if j == n {
      ColumnUnused(earlier, n, k);
    }
  }

  /** The fills of the last disposal. */
  lemma LastFills(m: Method, lots: seq<Lot>, disps: seq<Disposal>) returns (fills: seq<Fill>)
    requires disps != []
    ensures var n := |disps| - 1;
      && Run(m, lots, disps).fills == Run(m, lots, disps[..n]).fills + fills
      && AllPositive(Run(m, lots, disps[..n]).fills) && AllPositive(fills)
      && (forall f :: f in Run(m, lots, disps[..n]).fills ==> f.disp < n)
      && (forall f :: f in fills ==> f.disp == n)
  {
    var n := |disps| - 1;
    var s := Run(m, lots, disps[..n]);
    var order := Order(m, lots, s.rem, disps[n].disposedAt);
    fills := Drain(s.rem, order, disps[n].amountSat, n).fills;
    RunFillsInRange(m, lots, disps[..n]);
    DrainFillsInRange(s.rem, order, disps[n].amountSat, n);
  }

  lemma ColumnOfLast(m: Method, lots: seq<Lot>, disps: seq<Disposal>, j: nat, k: nat, fills: seq<Fill>)
    requires j < |disps| && fills == Run(m, lots, disps).fills
    ensures var n := |disps| - 1;
      var earlier := Run(m, lots, disps[..n]).fills;
      Column(AssignmentOf(fills), j, k)
      == if j < n then Column(AssignmentOf(earlier), j, k) else TakenBelow(fills, k) - TakenBelow(earlier, k)
  {
    var n := |disps| - 1;
    var earlier := Run(m, lots, disps[..n]).fills;
    var last := LastFills(m, lots, disps);
    ColumnOfSteps(earlier, last, n, j, k);
    TakenBelowConcat(earlier, last, k);
  }

  /** Column j of the assignment of the first n disposals is what the j-th took from the k oldest lots. */
  lemma {:induction false} ColumnOfRun(m: Method, lots: seq<Lot>, disps: seq<Disposal>, n: nat, j: nat, k: nat)
    requires j < n <= |disps|
    ensures Column(AssignmentOf(Run(m, lots, disps[..n]).fills), j, k)
         == TakenBelow(Run(m, lots, disps[..j + 1]).fills, k) - TakenBelow(Run(m, lots, disps[..j]).fills, k)
    decreases n
  {
    assert disps[..n][..n - 1] == disps[..n - 1];
    ColumnOfLast(m, lots, disps[..n], j, k, Run(m, lots, disps[..n]).fills);
    if j < n - 1 {
      ColumnOfRun(m, lots, disps, n - 1, j, k);
    }
  }

  /** As an assignment, a run takes from the k oldest lots, in its first n disposals, what its events say. */
  lemma {:induction false} TotalOfRun(m: Method, lots: seq<Lot>, disps: seq<Disposal>, n: nat, k: nat)
    requires n <= |disps|
    ensures Total(AssignmentOf(Run(m, lots, disps).fills), n, k) == TakenBelow(Run(m, lots, disps[..n]).fills, k)
  {
    if n > 0 {
      TotalOfRun(m, lots, disps, n - 1, k);
      ColumnOfRun(m, lots, disps, |disps|, n - 1, k);
      assert disps[..|disps|] == disps;
    }
  }

  /**
    What the matcher does is itself a feasible assignment, with the same totals for every number of
    disposals and every cut: the optimum is reached, and so are both extremes.
   */
  lemma MatcherIsFeasible(m: Method, lots: seq<Lot>, disps: seq<Disposal>)
    requires m == Fifo || m == Lifo
    requires Sorted(lots, disps)
    ensures var x := AssignmentOf(Run(m, lots, disps).fills);
      && Feasible(x, lots, disps)
      && forall n: nat, k: nat :: n <= |disps| ==> Total(x, n, k) == TakenBelow(Run(m, lots, disps[..n]).fills, k)
  {
    forall n: nat, k: nat | n <= |disps|
      ensures Total(AssignmentOf(Run(m, lots, disps).fills), n, k) == TakenBelow(Run(m, lots, disps[..n]).fills, k)
    {
      TotalOfRun(m, lots, disps, n, k);
    }
    var s := Run(m, lots, disps);
    var x := AssignmentOf(s.fills);
    FillsRespectDates(m, lots, disps);
    RunFillsInRange(m, lots, disps);
    forall i: nat, j: nat | i < |lots| && j < |disps| && x(i, j) > 0
      ensures lots[i].acquiredAt <= disps[j].disposedAt
    {
      AmountNeedsFill(s.fills, i, j);
    }
    forall i | 0 <= i < |lots|
      ensures Row(x, i, |disps|) <= Pos(lots[i].amountSat)
    {
      RowIsTaken(s.fills, i, |disps|);
      LotConserved(m, lots, disps, i);
      EventsTakeWhatLotsLose(m, lots, disps, 0);
    }
    forall j | 0 <= j < |disps|
      ensures Column(x, j, |lots|) <= Pos(disps[j].amountSat)
    {
      RunColumn(m, lots, disps, j);
    }
  }

  // ----- the number of events -----

  function OpenCount(rem: seq<int>): nat {
    if rem == [] then 0 else OpenCount(rem[..|rem| - 1]) + (if rem[|rem| - 1] > 0 then 1 else 0)
  }

  lemma {:induction false} OpenCountUpdate(rem: seq<int>, i: nat, v: int)
    requires i < |rem| && rem[i] > 0
    ensures OpenCount(rem[i := v]) == OpenCount(rem) - (if v > 0 then 0 else 1)
  {
    var n := |rem| - 1;
    if i < n {
      assert rem[i := v][..n] == rem[..n][i := v];
      OpenCountUpdate(rem[..n], i, v);
    } else {
      assert rem[i := v][..n] == rem[..n];
    }
  }

  lemma {:induction false} DrainCount(rem: seq<int>, order: seq<nat>, need: int, disp: nat)
    ensures var d := Drain(rem, order, need, disp);
      |d.fills| + OpenCount(d.rem) <= OpenCount(rem) + 1
    decreases |order|
  {
    if order != [] && need > 0 {
      var i := order[0];
      if i >= |rem| || rem[i] <= 0 {
        DrainCount(rem, order[1..], need, disp);
      } else {
        var c := Min(rem[i], need);
        OpenCountUpdate(rem, i, rem[i] - c);
        if c == need {
          DrainNothing(rem[i := rem[i] - c], order[1..], 0, disp);
        }
        DrainCount(rem[i := rem[i] - c], order[1..], need - c, disp);
      }
    }
  }

  lemma {:induction false} OpenCountBound(rem: seq<int>)
    ensures OpenCount(rem) <= |rem|
  {
    if rem != [] {
      OpenCountBound(rem[..|rem| - 1]);
    }
  }

  /** At most one event per lot plus one per disposal: every event drains a lot or completes a disposal. */
  lemma {:induction false} EventCountBound(m: Method, lots: seq<Lot>, disps: seq<Disposal>)
    ensures |Run(m, lots, disps).fills| + OpenCount(Run(m, lots, disps).rem) <= |lots| + |disps|
  {
    if disps == [] {
      OpenCountBound(Amounts(lots));
    } else {
      var n := |disps| - 1;
      EventCountBound(m, lots, disps[..n]);
      var s := Run(m, lots, disps[..n]);
      DrainCount(s.rem, Order(m, lots, s.rem, disps[n].disposedAt), disps[n].amountSat, n);
    }
  }
}
