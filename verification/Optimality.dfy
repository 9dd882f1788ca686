/**
  FIFO and LIFO against every other way of matching: both match as much as any feasible
  assignment can, FIFO always from the oldest lots and LIFO always from the newest.
 */
module Optimality {
  import opened Sums
  import opened CostBasis
  import opened Draining

  /** Input in the order Match processes it. */
  ghost predicate Sorted(lots: seq<Lot>, disps: seq<Disposal>) {
    SortedOn(lots, LOT_DATE) && SortedOn(disps, DISPOSAL_DATE)
  }

  /** What the k oldest lots were bought with, in satoshis. */
  function Supply(lots: seq<Lot>, k: nat): nat
    requires k <= |lots|
  {
    Held(Amounts(lots), k)
  }

  /**
    The most that disposals `disps` can take from lots k, k+1, ...: after each disposal the
    total grows by the disposal's size, capped by the supply dated on or before it.
   */
  function Best(lots: seq<Lot>, disps: seq<Disposal>, k: nat): nat
    requires k <= |lots|
  {
    if disps == [] then 0
    else
      var n := |disps| - 1;
      var p := Eligible(lots, disps[n].disposedAt);
      Min(Best(lots, disps[..n], k) + Pos(disps[n].amountSat), Pos(Supply(lots, p) - Supply(lots, k)))
  }

  function Demand(disps: seq<Disposal>): (d: nat) {
    if disps == [] then 0 else Demand(disps[..|disps| - 1]) + Pos(disps[|disps| - 1].amountSat)
  }

  lemma SortedPrefix(lots: seq<Lot>, disps: seq<Disposal>)
    requires Sorted(lots, disps) && disps != []
    ensures Sorted(lots, disps[..|disps| - 1])
    ensures forall j :: 0 <= j < |disps| ==> disps[j].disposedAt <= disps[|disps| - 1].disposedAt
  {
    var n := |disps| - 1;
    forall j | 0 <= j < n
      ensures disps[j].disposedAt <= disps[n].disposedAt
    {
      assert DISPOSAL_DATE(disps[j]) <= DISPOSAL_DATE(disps[n]);
    }
  }

  // ----- one step -----

  /** One disposal, as a walk over the eligible prefix of the lots. */
  function WalkOf(m: Method, rem: seq<int>, p: nat, need: int): (w: Walked)
    requires p <= |rem|
    ensures |w.rem| == |rem|
  {
    if m.Lifo? then WalkDown(rem, p, need) else WalkUp(rem, 0, p, need)
  }

  lemma StepWalks(m: Method, lots: seq<Lot>, s: State, d: Disposal, disp: nat)
    requires SortedOn(lots, LOT_DATE) && |s.rem| == |lots|
    ensures var w := WalkOf(m, s.rem, Eligible(lots, d.disposedAt), d.amountSat);
      var s' := Step(m, lots, s, d, disp);
      s'.rem == w.rem && s'.unmatched == s.unmatched + Pos(w.left)
  {
    var p := Eligible(lots, d.disposedAt);
    OrderIsWalk(m, lots, s.rem, d.disposedAt);
    if m.Lifo? {
      DrainWalksDown(s.rem, p, d.amountSat, disp);
    } else {
      DrainWalksUp(s.rem, 0, p, d.amountSat, disp);
    }
  }

  lemma StepFrame(m: Method, lots: seq<Lot>, s: State, d: Disposal, disp: nat)
    requires SortedOn(lots, LOT_DATE) && |s.rem| == |lots|
    ensures var p := Eligible(lots, d.disposedAt);
      Step(m, lots, s, d, disp).rem[p..] == s.rem[p..]
  {
    var p := Eligible(lots, d.disposedAt);
    StepWalks(m, lots, s, d, disp);
    WalkDownFrame(s.rem, p, d.amountSat);
    WalkUpFrame(s.rem, 0, p, d.amountSat);
  }

  lemma WalkLeaves(m: Method, rem: seq<int>, p: nat, need: int)
    requires p <= |rem|
    ensures Pos(WalkOf(m, rem, p, need).left) == Pos(Pos(need) - Held(rem, p))
  {
    if m.Lifo? {
      WalkDownLeaves(rem, p, need);
    } else {
      WalkUpLeaves(rem, 0, p, need);
      assert Held(rem, 0) == 0;
    }
  }

  /** What a disposal cannot find among the eligible lots goes unmatched, whatever the method. */
  lemma StepUnmatched(m: Method, lots: seq<Lot>, s: State, d: Disposal, disp: nat)
    requires SortedOn(lots, LOT_DATE) && |s.rem| == |lots|
    ensures var p := Eligible(lots, d.disposedAt);
      Step(m, lots, s, d, disp).unmatched == s.unmatched + Pos(Pos(d.amountSat) - Held(s.rem, p))
  {
    StepWalks(m, lots, s, d, disp);
    WalkLeaves(m, s.rem, Eligible(lots, d.disposedAt), d.amountSat);
  }

  lemma WalkDownHoldsLess(rem: seq<int>, p: nat, need: int, k: nat)
    requires k <= p <= |rem|
    ensures HoldsLess(rem, WalkDown(rem, p, need).rem, k, p, Pos(need))
  {
    WalkDownTakesNewest(rem, p, need, k);
  }

  lemma LifoStep(lots: seq<Lot>, s: State, d: Disposal, disp: nat, k: nat)
    requires SortedOn(lots, LOT_DATE) && |s.rem| == |lots| && k <= Eligible(lots, d.disposedAt)
    ensures var p := Eligible(lots, d.disposedAt);
      var s' := Step(Lifo, lots, s, d, disp);
      HoldsLess(s.rem, s'.rem, k, p, Pos(d.amountSat))
  {
    WalkDownHoldsLess(s.rem, Eligible(lots, d.disposedAt), d.amountSat, k);
    StepWalks(Lifo, lots, s, d, disp);
  }

  lemma FifoStep(lots: seq<Lot>, s: State, d: Disposal, disp: nat, k: nat)
    requires SortedOn(lots, LOT_DATE) && |s.rem| == |lots| && k <= Eligible(lots, d.disposedAt)
    ensures Held(Step(Fifo, lots, s, d, disp).rem, k) == Pos(Held(s.rem, k) - Pos(d.amountSat))
  {
    StepWalks(Fifo, lots, s, d, disp);
    WalkUpTakesOldest(s.rem, 0, Eligible(lots, d.disposedAt), d.amountSat, k);
    assert Held(s.rem, 0) == 0;
  }

  /** Lots dated after the last disposal are untouched. */
  lemma {:induction false} LaterLotsUntouched(m: Method, lots: seq<Lot>, disps: seq<Disposal>, at: int)
    requires m == Fifo || m == Lifo
    requires Sorted(lots, disps)
    requires forall j :: 0 <= j < |disps| ==> disps[j].disposedAt <= at
    ensures Run(m, lots, disps).rem[Eligible(lots, at)..] == Amounts(lots)[Eligible(lots, at)..]
  {
    if disps != [] {
      var n := |disps| - 1;
      SortedPrefix(lots, disps);
      LaterLotsUntouched(m, lots, disps[..n], at);
      EligibleMonotone(lots, disps[n].disposedAt, at);
      var p, q := Eligible(lots, disps[n].disposedAt), Eligible(lots, at);
      var s, s' := Run(m, lots, disps[..n]), Run(m, lots, disps);
      StepFrame(m, lots, s, disps[n], n);
      assert s'.rem[q..] == s'.rem[p..][q - p..] && s.rem[q..] == s.rem[p..][q - p..];
    }
  }

  // ----- whole runs -----

  /** What the first events took from the k oldest lots, read off the remaining satoshis. */
  function Taken(lots: seq<Lot>, rem: seq<int>, k: nat): int
    requires k <= |lots| == |rem|
  {
    Supply(lots, k) - Held(rem, k)
  }

  /** A step leaves the lots dated after its disposal as they were bought. */
  lemma LastStepFrame(m: Method, lots: seq<Lot>, disps: seq<Disposal>, k: nat)
    requires m == Fifo || m == Lifo
    requires Sorted(lots, disps) && disps != []
    requires Eligible(lots, disps[|disps| - 1].disposedAt) <= k <= |lots|
    ensures var n := |disps| - 1;
      var p := Eligible(lots, disps[n].disposedAt);
      && Taken(lots, Run(m, lots, disps).rem, k) == Taken(lots, Run(m, lots, disps).rem, p)
      && Taken(lots, Run(m, lots, disps[..n]).rem, k) == Taken(lots, Run(m, lots, disps[..n]).rem, p)
  {
    var n := |disps| - 1;
    var p := Eligible(lots, disps[n].disposedAt);
    SortedPrefix(lots, disps);
    LaterLotsUntouched(m, lots, disps, disps[n].disposedAt);
    LaterLotsUntouched(m, lots, disps[..n], disps[n].disposedAt);
    HeldFrame(Amounts(lots), Run(m, lots, disps).rem, p, k);
    HeldFrame(Amounts(lots), Run(m, lots, disps[..n]).rem, p, k);
  }

  /** Satoshis gone from lots k, k+1, ... */
  function TakenAfter(lots: seq<Lot>, rem: seq<int>, k: nat): int
    requires k <= |lots| == |rem|
  {
    Taken(lots, rem, |lots|) - Taken(lots, rem, k)
  }

  /** From books `rem` to `rem'`, lots k, k+1, ... gave all that was needed and that the first p hold. */
  predicate GaveAll(lots: seq<Lot>, rem: seq<int>, rem': seq<int>, k: nat, p: nat, need: int)
    requires k <= p <= |lots| == |rem| == |rem'|
  {
    TakenAfter(lots, rem', k) == Min(TakenAfter(lots, rem, k) + need, Pos(Supply(lots, p) - Supply(lots, k)))
  }

  /** Lots from p on are as they were bought. */
  predicate Untouched(lots: seq<Lot>, rem: seq<int>, p: nat)
    requires p <= |lots| == |rem|
  {
    Taken(lots, rem, |lots|) == Taken(lots, rem, p)
  }

  /** Of lots k..p-1, what is left is what was held less what was needed. */
  predicate HoldsLess(rem: seq<int>, rem': seq<int>, k: nat, p: nat, need: int)
    requires k <= p <= |rem| == |rem'|
  {
    Held(rem', p) - Held(rem', k) == Pos(Held(rem, p) - Held(rem, k) - need)
  }

  lemma LifoBooks(lots: seq<Lot>, rem: seq<int>, rem': seq<int>, k: nat, p: nat, need: int)
    requires k <= p <= |lots| == |rem| == |rem'| && need >= 0
    requires Untouched(lots, rem, p) && Untouched(lots, rem', p) && HoldsLess(rem, rem', k, p, need)
    ensures GaveAll(lots, rem, rem', k, p, need)
  {
    HeldGrows(Amounts(lots), k, p);
    HeldGrows(rem, k, p);
  }

  /** One LIFO step, from books `s` to books `s'`, takes from lots k, k+1, ... all it needs and they hold. */
  lemma LifoStepBooks(lots: seq<Lot>, disps: seq<Disposal>, k: nat, p: nat, s: State, s': State)
    requires Sorted(lots, disps) && disps != []
    requires p == Eligible(lots, disps[|disps| - 1].disposedAt) && k <= p
    requires s == Run(Lifo, lots, disps[..|disps| - 1]) && s' == Run(Lifo, lots, disps)
    ensures GaveAll(lots, s.rem, s'.rem, k, p, Pos(disps[|disps| - 1].amountSat))
  {
    LifoStepTouches(lots, disps, p, s, s');
    LifoStepHolds(lots, disps, k, p, s, s');
    LifoBooks(lots, s.rem, s'.rem, k, p, Pos(disps[|disps| - 1].amountSat));
  }

  lemma LifoStepTouches(lots: seq<Lot>, disps: seq<Disposal>, p: nat, s: State, s': State)
    requires Sorted(lots, disps) && disps != [] && p == Eligible(lots, disps[|disps| - 1].disposedAt)
    requires s == Run(Lifo, lots, disps[..|disps| - 1]) && s' == Run(Lifo, lots, disps)
    ensures Untouched(lots, s.rem, p) && Untouched(lots, s'.rem, p)
  {
    LastStepFrame(Lifo, lots, disps, |lots|);
  }

  lemma LifoStepHolds(lots: seq<Lot>, disps: seq<Disposal>, k: nat, p: nat, s: State, s': State)
    requires Sorted(lots, disps) && disps != []
    requires p == Eligible(lots, disps[|disps| - 1].disposedAt) && k <= p
    requires s == Run(Lifo, lots, disps[..|disps| - 1]) && s' == Run(Lifo, lots, disps)
    ensures HoldsLess(s.rem, s'.rem, k, p, Pos(disps[|disps| - 1].amountSat))
  {
    var d := disps[|disps| - 1];
    assert s' == Step(Lifo, lots, s, d, |disps| - 1);
    LifoStep(lots, s, d, |disps| - 1, k);
  }

  lemma LifoLaterLots(lots: seq<Lot>, disps: seq<Disposal>, k: nat)
    requires Sorted(lots, disps) && disps != [] && Eligible(lots, disps[|disps| - 1].disposedAt) <= k <= |lots|
    ensures TakenAfter(lots, Run(Lifo, lots, disps).rem, k) == Best(lots, disps, k)
  {
    var p := Eligible(lots, disps[|disps| - 1].disposedAt);
    var r' := Run(Lifo, lots, disps).rem;
    assert Taken(lots, r', |lots|) == Taken(lots, r', p) by {
      LastStepFrame(Lifo, lots, disps, |lots|);
    }
    assert Taken(lots, r', k) == Taken(lots, r', p) by {
      LastStepFrame(Lifo, lots, disps, k);
    }
    assert Best(lots, disps, k) == 0 by {
      HeldGrows(Amounts(lots), p, k);
    }
  }

  /** LIFO takes from lots k, k+1, ... as much as can be taken from them at all. */
  lemma {:induction false} LifoTakesBestSuffix(lots: seq<Lot>, disps: seq<Disposal>, k: nat)
    requires Sorted(lots, disps) && k <= |lots|
    ensures TakenAfter(lots, Run(Lifo, lots, disps).rem, k) == Best(lots, disps, k)
  {
    if disps != [] {
      var n := |disps| - 1;
      SortedPrefix(lots, disps);
      if k <= Eligible(lots, disps[n].disposedAt) {
        LifoTakesBestSuffix(lots, disps[..n], k);
        LifoStepBooks(lots, disps, k, Eligible(lots, disps[n].disposedAt),
                      Run(Lifo, lots, disps[..n]), Run(Lifo, lots, disps));
      } else {
        LifoLaterLots(lots, disps, k);
      }
    }
  }

  /** One FIFO step, from books `s` to books `s'`, takes from the k oldest lots all it needs and they hold. */
  lemma FifoStepBooks(lots: seq<Lot>, disps: seq<Disposal>, k: nat, s: State, s': State)
    requires Sorted(lots, disps) && disps != [] && k <= Eligible(lots, disps[|disps| - 1].disposedAt)
    requires s == Run(Fifo, lots, disps[..|disps| - 1]) && s' == Run(Fifo, lots, disps)
    ensures Taken(lots, s'.rem, k) == Min(Taken(lots, s.rem, k) + Pos(disps[|disps| - 1].amountSat), Supply(lots, k))
  {
    FifoStep(lots, s, disps[|disps| - 1], |disps| - 1, k);
  }

  /** FIFO takes from the k oldest lots everything it matched, up to what they hold. */
  lemma {:induction false} FifoTakesOldest(lots: seq<Lot>, disps: seq<Disposal>, k: nat)
    requires Sorted(lots, disps) && k <= |lots|
    ensures Taken(lots, Run(Fifo, lots, disps).rem, k) == Min(Best(lots, disps, 0), Supply(lots, k))
  {
    if disps != [] {
      var n := |disps| - 1;
      var p := Eligible(lots, disps[n].disposedAt);
      var k' := Min(k, p);
      SortedPrefix(lots, disps);
      FifoTakesOldest(lots, disps[..n], k');
      FifoStepBooks(lots, disps, k', Run(Fifo, lots, disps[..n]), Run(Fifo, lots, disps));
      HeldGrows(Amounts(lots), k', k);
      HeldGrows(Amounts(lots), k', p);
      if k > p {
        LastStepFrame(Fifo, lots, disps, k);
      }
    }
  }

  /** FIFO and LIFO consume the same total: the best possible. */
  lemma BothMatchBest(m: Method, lots: seq<Lot>, disps: seq<Disposal>)
    requires m == Fifo || m == Lifo
    requires Sorted(lots, disps)
    ensures Taken(lots, Run(m, lots, disps).rem, |lots|) == Best(lots, disps, 0)
  {
    if m == Lifo {
      LifoTakesBestSuffix(lots, disps, 0);
    } else {
      FifoTakesOldest(lots, disps, |lots|);
      BestWithinSupply(lots, disps);
    }
  }

  lemma BestWithinSupply(lots: seq<Lot>, disps: seq<Disposal>)
    ensures Best(lots, disps, 0) <= Supply(lots, |lots|)
  {
    if disps != [] {
      HeldGrows(Amounts(lots), Eligible(lots, disps[|disps| - 1].disposedAt), |lots|);
    }
  }

  /** Matched plus unmatched is the total disposed. */
  lemma {:induction false} MatchedPlusUnmatched(m: Method, lots: seq<Lot>, disps: seq<Disposal>)
    requires m == Fifo || m == Lifo
    requires Sorted(lots, disps)
    ensures Best(lots, disps, 0) + Run(m, lots, disps).unmatched == Demand(disps)
  {
    if disps != [] {
      var n := |disps| - 1;
      var d := disps[n];
      var p := Eligible(lots, d.disposedAt);
      var s := Run(m, lots, disps[..n]);
      SortedPrefix(lots, disps);
      MatchedPlusUnmatched(m, lots, disps[..n]);
      LaterLotsUntouched(m, lots, disps[..n], d.disposedAt);
      BothMatchBest(m, lots, disps[..n]);
      HeldFrame(Amounts(lots), s.rem, p, |lots|);
      StepUnmatched(m, lots, s, d, n);
    }
  }

  // ----- every feasible assignment -----

  /** x(i, j) satoshis of lot i go to disposal j. */
  type Assignment = (nat, nat) -> nat

  /** What disposal j takes from the k oldest lots. */
  function Column(x: Assignment, j: nat, k: nat): nat {
    if k == 0 then 0 else Column(x, j, k - 1) + x(k - 1, j)
  }

  /** What the first n disposals take from lot i. */
  function Row(x: Assignment, i: nat, n: nat): nat {
    if n == 0 then 0 else Row(x, i, n - 1) + x(i, n - 1)
  }

  /** What the first n disposals take from the k oldest lots. */
  function Total(x: Assignment, n: nat, k: nat): nat {
    if n == 0 then 0 else Total(x, n - 1, k) + Column(x, n - 1, k)
  }

  ghost predicate Feasible(x: Assignment, lots: seq<Lot>, disps: seq<Disposal>) {
    && (forall i: nat, j: nat :: i < |lots| && j < |disps| && x(i, j) > 0 ==>
          lots[i].acquiredAt <= disps[j].disposedAt)
    && (forall i :: 0 <= i < |lots| ==> Row(x, i, |disps|) <= Pos(lots[i].amountSat))
    && (forall j :: 0 <= j < |disps| ==> Column(x, j, |lots|) <= Pos(disps[j].amountSat))
  }

  lemma {:induction false} TotalByRow(x: Assignment, n: nat, k: nat)
    ensures Total(x, n, k + 1) == Total(x, n, k) + Row(x, k, n)
  {
    if n > 0 {
      TotalByRow(x, n - 1, k);
    }
  }

  lemma {:induction false} TotalOfNothing(x: Assignment, n: nat)
    ensures Total(x, n, 0) == 0
  {
    if n > 0 {
      TotalOfNothing(x, n - 1);
    }
  }

  lemma {:induction false} ColumnGrows(x: Assignment, j: nat, lo: nat, hi: nat)
    requires lo <= hi
    ensures Column(x, j, lo) <= Column(x, j, hi)
    decreases hi
  {
    if lo < hi {
      ColumnGrows(x, j, lo, hi - 1);
    }
  }

  lemma {:induction false} RowGrows(x: Assignment, i: nat, n: nat, m: nat)
    requires n <= m
    ensures Row(x, i, n) <= Row(x, i, m)
    decreases m
  {
    if n < m {
      RowGrows(x, i, n, m - 1);
    }
  }

  lemma {:induction false} RowZero(x: Assignment, i: nat, n: nat)
    requires forall j: nat :: j < n ==> x(i, j) == 0
    ensures Row(x, i, n) == 0
  {
    if n > 0 {
      RowZero(x, i, n - 1);
    }
  }

  /** What lot i can give when only the first p lots are eligible. */
  function Room(lots: seq<Lot>, p: nat, i: nat): nat
    requires i < |lots|
  {
    if i < p then Pos(lots[i].amountSat) else 0
  }

  /** What lots lo..hi-1 can give when only the first p lots are eligible. */
  function RoomFrom(lots: seq<Lot>, p: nat, lo: nat, hi: nat): nat
    requires lo <= hi <= |lots| && p <= |lots|
  {
    Pos(Supply(lots, Min(hi, p)) - Supply(lots, lo))
  }

  /** A lot acquired after the disposal gives it nothing. */
  lemma NothingFromLaterLot(x: Assignment, lots: seq<Lot>, disps: seq<Disposal>, i: nat, j: nat)
    requires Feasible(x, lots, disps) && i < |lots| && j < |disps|
    requires lots[i].acquiredAt > disps[j].disposedAt
    ensures x(i, j) == 0
  {
  }

  lemma LaterLotRow(x: Assignment, lots: seq<Lot>, disps: seq<Disposal>, n: nat, i: nat)
    requires Sorted(lots, disps) && Feasible(x, lots, disps) && 0 < n <= |disps|
    requires Eligible(lots, disps[n - 1].disposedAt) <= i < |lots|
    ensures Row(x, i, n) == 0
  {
    EligibleIsPrefix(lots, disps[n - 1].disposedAt);
    forall j: nat | j < n
      ensures x(i, j) == 0
    {
      assert DISPOSAL_DATE(disps[j]) <= DISPOSAL_DATE(disps[n - 1]);
      NothingFromLaterLot(x, lots, disps, i, j);
    }
    RowZero(x, i, n);
  }

  lemma RowWithinLot(x: Assignment, lots: seq<Lot>, disps: seq<Disposal>, n: nat, i: nat)
    requires Sorted(lots, disps) && Feasible(x, lots, disps)
    requires 0 < n <= |disps| && i < |lots|
    ensures Row(x, i, n) <= Room(lots, Eligible(lots, disps[n - 1].disposedAt), i)
  {
    if i < Eligible(lots, disps[n - 1].disposedAt) {
      RowGrows(x, i, n, |disps|);
    } else {
      LaterLotRow(x, lots, disps, n, i);
    }
  }

  lemma RoomFromGrows(lots: seq<Lot>, p: nat, lo: nat, hi: nat)
    requires lo < hi <= |lots| && p <= |lots|
    ensures RoomFrom(lots, p, lo, hi) == RoomFrom(lots, p, lo, hi - 1) + Room(lots, p, hi - 1)
  {
    if hi - 1 < p {
      HeldGrows(Amounts(lots), lo, hi - 1);
    }
  }

  /** When no lot gives more than it can, lots lo..hi-1 together do not either. */
  lemma {:induction false} TotalWithinRoom(x: Assignment, lots: seq<Lot>, p: nat, n: nat, lo: nat, hi: nat)
    requires lo <= hi <= |lots| && p <= |lots|
    requires forall i: nat :: i < |lots| ==> Row(x, i, n) <= Room(lots, p, i)
    ensures Total(x, n, hi) - Total(x, n, lo) <= RoomFrom(lots, p, lo, hi)
    decreases hi
  {
    if lo < hi {
      TotalByRow(x, n, hi - 1);
      RoomFromGrows(lots, p, lo, hi);
      TotalWithinRoom(x, lots, p, n, lo, hi - 1);
    }
  }

  /** The first n disposals take from lots k, k+1, ... at most what is dated on or before the n-th. */
  lemma TotalWithinSupply(x: Assignment, lots: seq<Lot>, disps: seq<Disposal>, n: nat, k: nat)
    requires Sorted(lots, disps) && Feasible(x, lots, disps)
    requires 0 < n <= |disps| && k <= |lots|
    ensures Total(x, n, |lots|) - Total(x, n, k) <= RoomAt(lots, disps[n - 1].disposedAt, k)
  {
    var p := Eligible(lots, disps[n - 1].disposedAt);
    forall i: nat | i < |lots|
      ensures Row(x, i, n) <= Room(lots, p, i)
    {
      RowWithinLot(x, lots, disps, n, i);
    }
    TotalWithinRoom(x, lots, p, n, k, |lots|);
  }

  /** What lots k, k+1, ... hold that a disposal at `at` may take. */
  function RoomAt(lots: seq<Lot>, at: int, k: nat): nat
    requires k <= |lots|
  {
    Pos(Supply(lots, Eligible(lots, at)) - Supply(lots, k))
  }

  lemma BestOfPrefix(lots: seq<Lot>, disps: seq<Disposal>, n: nat, k: nat)
    requires 0 < n <= |disps| && k <= |lots|
    ensures Best(lots, disps[..n], k)
         == Min(Best(lots, disps[..n - 1], k) + Pos(disps[n - 1].amountSat), RoomAt(lots, disps[n - 1].disposedAt, k))
  {
    assert disps[..n][..n - 1] == disps[..n - 1] && disps[..n][n - 1] == disps[n - 1];
  }

  /** What the first n disposals take from lots k, k+1, ... */
  function TotalAfter(x: Assignment, n: nat, lots: nat, k: nat): int {
    Total(x, n, lots) - Total(x, n, k)
  }

  lemma TotalStep(x: Assignment, lots: seq<Lot>, disps: seq<Disposal>, n: nat, k: nat)
    requires Feasible(x, lots, disps) && 0 < n <= |disps| && k <= |lots|
    ensures TotalAfter(x, n, |lots|, k) <= TotalAfter(x, n - 1, |lots|, k) + Pos(disps[n - 1].amountSat)
  {
    assert Column(x, n - 1, |lots|) <= Pos(disps[n - 1].amountSat);
  }

  /** No feasible assignment takes more from lots k, k+1, ... than Best allows. */
  /** Of what is there for the n-th disposal, no more is taken than there is, nor than before it and by it. */
  lemma WithinBoth(x: Assignment, lots: seq<Lot>, disps: seq<Disposal>, n: nat, k: nat, before: nat)
    requires Sorted(lots, disps) && Feasible(x, lots, disps) && 0 < n <= |disps| && k <= |lots|
    requires TotalAfter(x, n - 1, |lots|, k) <= before
    ensures TotalAfter(x, n, |lots|, k)
         <= Min(before + Pos(disps[n - 1].amountSat), RoomAt(lots, disps[n - 1].disposedAt, k))
  {
    TotalStep(x, lots, disps, n, k);
    TotalWithinSupply(x, lots, disps, n, k);
  }

  lemma {:induction false} NoAssignmentBeatsBest(x: Assignment, lots: seq<Lot>, disps: seq<Disposal>, n: nat, k: nat)
    requires Sorted(lots, disps) && Feasible(x, lots, disps) && n <= |disps| && k <= |lots|
    ensures TotalAfter(x, n, |lots|, k) <= Best(lots, disps[..n], k)
  {
    if n > 0 {
      NoAssignmentBeatsBest(x, lots, disps, n - 1, k);
      BestOfPrefix(lots, disps, n, k);
      WithinBoth(x, lots, disps, n, k, Best(lots, disps[..n - 1], k));
    }
  }
}
