/**
  The matched total without any reference to sorting: it is the smallest, over all cut
  times T, of the supply acquired by T plus the demand disposed after T. Hence it does
  not depend on the method nor on how an unstable sort orders equal dates.
 */
module MinCut {
  import opened Sums
  import opened CostBasis
  import opened Draining
  import opened Optimality
  import opened CostBasisTheorems

  function SupplyTerm(t: int): Lot -> int {
    (l: Lot) => if l.acquiredAt <= t then Pos(l.amountSat) else 0
  }

  function DemandTerm(t: int): Disposal -> int {
    (d: Disposal) => if d.disposedAt > t then Pos(d.amountSat) else 0
  }

  const SIZE: Disposal -> int := (d: Disposal) => Pos(d.amountSat)

  function Cut(lots: seq<Lot>, disps: seq<Disposal>, t: int): int {
    SumBy(lots, SupplyTerm(t)) + SumBy(disps, DemandTerm(t))
  }

  lemma SumBySnoc<T>(s: seq<T>, f: T -> int)
    requires s != []
    ensures SumBy(s, f) == SumBy(s[..|s| - 1], f) + f(s[|s| - 1])
  {
    var n := |s| - 1;
    assert s == s[..n] + [s[n]];
    SumByConcat(s[..n], [s[n]], f);
    assert SumBy([s[n]], f) == f(s[n]) + SumBy([], f);
  }

  /** On sorted lots, the supply acquired by t is that of the eligible prefix. */
  lemma {:induction false} SupplyOfPrefix(lots: seq<Lot>, t: int)
    requires SortedOn(lots, LOT_DATE)
    ensures Supply(lots, Eligible(lots, t)) == SumBy(lots, SupplyTerm(t))
  {
    if lots != [] {
      var n := |lots| - 1;
      SumBySnoc(lots, SupplyTerm(t));
      SupplyOfPrefix(lots[..n], t);
      HeldOfPrefix(Amounts(lots[..n]), Amounts(lots), Eligible(lots[..n], t));
      if lots[n].acquiredAt <= t {
        EligibleIsPrefix(lots, t);
        AllEligible(lots[..n], t);
      }
    }
  }

  lemma {:induction false} AllEligible(lots: seq<Lot>, t: int)
    requires forall i :: 0 <= i < |lots| ==> lots[i].acquiredAt <= t
    ensures Eligible(lots, t) == |lots|
  {
  }

  lemma {:induction false} DemandIsSum(disps: seq<Disposal>)
    ensures Demand(disps) == SumBy(disps, SIZE)
  {
    if disps != [] {
      DemandIsSum(disps[..|disps| - 1]);
      SumBySnoc(disps, SIZE);
    }
  }

  lemma {:induction false} NoDemandAfter(disps: seq<Disposal>, t: int)
    requires forall j :: 0 <= j < |disps| ==> disps[j].disposedAt <= t
    ensures SumBy(disps, DemandTerm(t)) == 0
  {
    if disps != [] {
      NoDemandAfter(disps[1..], t);
    }
  }

  lemma {:induction false} NoSupplyBefore(lots: seq<Lot>, t: int)
    requires forall i :: 0 <= i < |lots| ==> lots[i].acquiredAt > t
    ensures SumBy(lots, SupplyTerm(t)) == 0
  {
    if lots != [] {
      NoSupplyBefore(lots[1..], t);
    }
  }

  lemma SupplyMonotone(lots: seq<Lot>, t: int, t': int)
    requires SortedOn(lots, LOT_DATE) && t <= t'
    ensures Supply(lots, Eligible(lots, t)) <= Supply(lots, Eligible(lots, t'))
  {
    EligibleMonotone(lots, t, t');
    HeldGrows(Amounts(lots), Eligible(lots, t), Eligible(lots, t'));
  }

  /** Every cut bounds the matched total. */
  lemma {:induction false} BestBelowEveryCut(lots: seq<Lot>, disps: seq<Disposal>, t: int)
    requires Sorted(lots, disps)
    ensures Best(lots, disps, 0) <= Cut(lots, disps, t)
  {
    SupplyOfPrefix(lots, t);
    if disps != [] {
      var n := |disps| - 1;
      SortedPrefix(lots, disps);
      SumBySnoc(disps, DemandTerm(t));
      BestBelowEveryCut(lots, disps[..n], t);
      if disps[n].disposedAt <= t {
        SupplyMonotone(lots, disps[n].disposedAt, t);
        NoDemandAfter(disps, t);
      }
    }
  }

  /** Some cut is reached exactly. */
  lemma {:induction false} SomeCutIsReached(lots: seq<Lot>, disps: seq<Disposal>) returns (t: int)
    requires Sorted(lots, disps)
    ensures Best(lots, disps, 0) == Cut(lots, disps, t)
  {
    if disps == [] {
      t := if lots == [] then 0 else lots[0].acquiredAt - 1;
      forall i | 0 <= i < |lots|
        ensures lots[i].acquiredAt > t
      {
        assert i > 0 ==> LOT_DATE(lots[0]) <= LOT_DATE(lots[i]);
      }
      NoSupplyBefore(lots, t);
    } else {
      var n := |disps| - 1;
      var d := disps[n];
      SortedPrefix(lots, disps);
      t := SomeCutIsReached(lots, disps[..n]);
      SupplyOfPrefix(lots, d.disposedAt);
      NoDemandAfter(disps, d.disposedAt);
      if Best(lots, disps, 0) == Supply(lots, Eligible(lots, d.disposedAt)) {
        t := d.disposedAt;
      } else if t >= d.disposedAt {
        NoDemandAfter(disps[..n], t);
        SupplyOfPrefix(lots, t);
        SupplyMonotone(lots, d.disposedAt, t);
        t := d.disposedAt;
      } else {
        SumBySnoc(disps, DemandTerm(t));
      }
    }
  }

  lemma CutIgnoresOrder(lots: seq<Lot>, sl: seq<Lot>, disps: seq<Disposal>, sd: seq<Disposal>, t: int)
    requires multiset(sl) == multiset(lots) && multiset(sd) == multiset(disps)
    ensures Cut(sl, sd, t) == Cut(lots, disps, t)
  {
    SumByPermutation(sl, lots, SupplyTerm(t));
    SumByPermutation(sd, disps, DemandTerm(t));
  }

  /**
    Max-flow equals min-cut: however the sort breaks ties and whichever method is used, the
    matched total is the least cut of the input as given.
   */
  lemma MatchedIsMinCut(m: Method, lots: seq<Lot>, sl: seq<Lot>, disps: seq<Disposal>, sd: seq<Disposal>)
    requires m == Fifo || m == Lifo
    requires IsSortOf(sl, lots, LOT_DATE) && IsSortOf(sd, disps, DISPOSAL_DATE)
    ensures var matched := TakenBelow(Run(m, sl, sd).fills, |sl|);
      && (forall t :: matched <= Cut(lots, disps, t))
      && (exists t :: matched == Cut(lots, disps, t))
  {
    var matched := TakenBelow(Run(m, sl, sd).fills, |sl|);
    BothMatchBest(m, sl, sd);
    EventsTakeWhatLotsLose(m, sl, sd, |sl|);
    forall t
      ensures matched <= Cut(lots, disps, t)
    {
      BestBelowEveryCut(sl, sd, t);
      CutIgnoresOrder(lots, sl, disps, sd, t);
    }
    var t := SomeCutIsReached(sl, sd);
    CutIgnoresOrder(lots, sl, disps, sd, t);
  }

  /** Totals do not depend on the method nor on how ties are sorted. */
  lemma TiesAndMethodDoNotMatter(m: Method, m': Method, lots: seq<Lot>, sl: seq<Lot>, sl': seq<Lot>,
                                 disps: seq<Disposal>, sd: seq<Disposal>, sd': seq<Disposal>)
    requires (m == Fifo || m == Lifo) && (m' == Fifo || m' == Lifo)
    requires IsSortOf(sl, lots, LOT_DATE) && IsSortOf(sl', lots, LOT_DATE)
    requires IsSortOf(sd, disps, DISPOSAL_DATE) && IsSortOf(sd', disps, DISPOSAL_DATE)
    ensures TakenBelow(Run(m, sl, sd).fills, |sl|) == TakenBelow(Run(m', sl', sd').fills, |sl'|)
    ensures Run(m, sl, sd).unmatched == Run(m', sl', sd').unmatched
  {
    MatchedIsMinCut(m, lots, sl, disps, sd);
    MatchedIsMinCut(m', lots, sl', disps, sd');
    EventsTakeWhatLotsLose(m, sl, sd, |sl|);
    EventsTakeWhatLotsLose(m', sl', sd', |sl'|);
    BothMatchBest(m, sl, sd);
    BothMatchBest(m', sl', sd');
    MatchedPlusUnmatched(m, sl, sd);
    MatchedPlusUnmatched(m', sl', sd');
    DemandIsSum(sd);
    DemandIsSum(sd');
    SumByPermutation(sd, sd', SIZE);
  }
}
