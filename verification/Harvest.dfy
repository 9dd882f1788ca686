/**
  Tax-loss harvesting (internal/tax/harvest.go) and the Form 8949 totals
  (internal/tax/form8949.go). Harvesting recomputes open lots from the matcher's events;
  this module proves that it sees exactly what the matcher left, and that no dollar of
  cost basis is lost or counted twice between the two.
 */
module Harvesting {
  import opened Sums
  import opened CostBasis
  import opened Draining
  import opened Optimality
  import opened CostBasisTheorems
  import opened MinCut
  import opened Causality
  import opened Ties

  datatype Candidate = Candidate(
    lotID: int, source: string, externalID: string, acquiredAt: int, remainSat: int,
    costBasisUSD: real, marketValueUSD: real, unrealizedLoss: real, isLongTerm: bool, washSaleRisk: bool)

  datatype HarvestResult = HarvestResult(
    candidates: seq<Candidate>, totalUnrealizedLoss: real,
    estimatedSavingsShortTerm: real, estimatedSavingsLongTerm: real,
    ytdRealizedGainLoss: real, netAfterHarvest: real, washSaleWarning: bool)

  datatype HarvestOutcome = Harvested(result: HarvestResult) | HarvestRefused(name: string)

  /** The calendar facts about `asOf`: the start of its year and the day 30 days before. */
  datatype Calendar = Calendar(asOf: int, yearStart: int, washSaleCutoff: int)

  // ----- what the events say about a lot -----

  function ConsumedOf(events: seq<Event>, id: int): int {
    if events == [] then 0
    else
      var e := events[|events| - 1];
      ConsumedOf(events[..|events| - 1], id) + (if e.lotID == id then e.amountSat else 0)
  }

  function BasisOf(events: seq<Event>, id: int): real {
    if events == [] then 0.0
    else
      var e := events[|events| - 1];
      BasisOf(events[..|events| - 1], id) + (if e.lotID == id then e.costBasisUSD else 0.0)
  }

  /** What harvesting takes a lot to hold still. */
  function RemainingOf(lot: Lot, events: seq<Event>): int {
    lot.amountSat - ConsumedOf(events, lot.id)
  }

  function RealizedIn(events: seq<Event>, from: int, to: int): real {
    if events == [] then 0.0
    else
      var e := events[|events| - 1];
      RealizedIn(events[..|events| - 1], from, to) + (if from <= e.disposedAt <= to then e.gainLossUSD else 0.0)
  }

  predicate RecentBuy(lots: seq<Lot>, cal: Calendar) {
    exists i :: 0 <= i < |lots| && cal.washSaleCutoff <= lots[i].acquiredAt < cal.asOf
  }

  function CandidateOf(lot: Lot, remain: int, price: real, cal: Calendar, recentBuy: bool): Candidate {
    var basis := lot.CostPerSat() * remain as real;
    var market := remain as real / 100_000_000.0 * price;
    Candidate(lot.id, lot.source, lot.externalID, lot.acquiredAt, remain, basis, market, market - basis,
              cal.asOf - lot.acquiredAt > HOLDING_YEAR, recentBuy)
  }

  /** A lot is worth harvesting when it is still open and worth less than its cost. */
  predicate IsLosing(lot: Lot, remain: int, price: real, cal: Calendar) {
    remain > 0 && CandidateOf(lot, remain, price, cal, false).unrealizedLoss < 0.0
  }

  function CandidatesOf(lots: seq<Lot>, events: seq<Event>, price: real, cal: Calendar,
                        recentBuy: bool): seq<Candidate> {
    if lots == [] then []
    else
      var n := |lots| - 1;
      var rest := CandidatesOf(lots[..n], events, price, cal, recentBuy);
      var remain := RemainingOf(lots[n], events);
      if IsLosing(lots[n], remain, price, cal) then rest + [CandidateOf(lots[n], remain, price, cal, recentBuy)]
      else rest
  }

  function LossOf(candidates: seq<Candidate>): real {
    if candidates == [] then 0.0
    else LossOf(candidates[..|candidates| - 1]) + candidates[|candidates| - 1].unrealizedLoss
  }

  // ----- the program -----

  function Get(m: map<int, int>, id: int): int {
    if id in m then m[id] else 0
  }

  method ConsumedPerLot(events: seq<Event>) returns (consumed: map<int, int>)
    ensures forall id :: Get(consumed, id) == ConsumedOf(events, id)
  {
    consumed := map[];
    for k := 0 to |events|
      invariant forall id :: Get(consumed, id) == ConsumedOf(events[..k], id)
    {
      var e := events[k];
      assert events[..k + 1][..k] == events[..k];
      consumed := consumed[e.lotID := Get(consumed, e.lotID) + e.amountSat];
    }
    assert events[..|events|] == events;
  }

  method YearToDate(events: seq<Event>, cal: Calendar) returns (ytd: real)
    ensures ytd == RealizedIn(events, cal.yearStart, cal.asOf)
  {
    ytd := 0.0;
    for k := 0 to |events|
      invariant ytd == RealizedIn(events[..k], cal.yearStart, cal.asOf)
    {
      assert events[..k + 1][..k] == events[..k];
      if !(events[k].disposedAt < cal.yearStart) && !(events[k].disposedAt > cal.asOf) {
        ytd := ytd + events[k].gainLossUSD;
      }
    }
    assert events[..|events|] == events;
  }

  method FindRecentBuy(lots: seq<Lot>, cal: Calendar) returns (recentBuy: bool)
    ensures recentBuy <==> exists i :: 0 <= i < |lots| && cal.washSaleCutoff <= lots[i].acquiredAt < cal.asOf
  {
    for k := 0 to |lots|
      invariant forall i :: 0 <= i < k ==> !(cal.washSaleCutoff <= lots[i].acquiredAt < cal.asOf)
    {
      if !(lots[k].acquiredAt < cal.washSaleCutoff) && lots[k].acquiredAt < cal.asOf {
        return true;
      }
    }
    return false;
  }

  /** The last loop of Harvest: the open lots that are worth less than they cost. */
  method FindCandidates(lots: seq<Lot>, consumed: map<int, int>, ghost events: seq<Event>,
                        price: real, cal: Calendar, recentBuy: bool)
    returns (candidates: seq<Candidate>, loss: real)
    requires forall id :: Get(consumed, id) == ConsumedOf(events, id)
    ensures candidates == CandidatesOf(lots, events, price, cal, recentBuy)
    ensures loss == LossOf(candidates)
  {
    candidates, loss := [], 0.0;
    for k := 0 to |lots|
      invariant candidates == CandidatesOf(lots[..k], events, price, cal, recentBuy)
      invariant loss == LossOf(candidates)
    {
      var lot := lots[k];
      assert lots[..k + 1][..k] == lots[..k];
      var remainSat := lot.amountSat - Get(consumed, lot.id);
      assert remainSat == RemainingOf(lot, events);
      if remainSat > 0 {
        var c := CandidateOf(lot, remainSat, price, cal, recentBuy);
        assert IsLosing(lot, remainSat, price, cal) <==> c.unrealizedLoss < 0.0;
        if !(c.unrealizedLoss >= 0.0) {
          assert (candidates + [c])[..|candidates|] == candidates;
          candidates := candidates + [c];
          loss := loss + c.unrealizedLoss;
        }
      }
    }
    assert lots[..|lots|] == lots;
  }

  method Harvest(lots: seq<Lot>, disposals: seq<Disposal>, m: Method, price: real, cal: Calendar)
    returns (r: HarvestOutcome, ghost sl: seq<Lot>, ghost sd: seq<Disposal>)
    ensures m.Other? <==> r.HarvestRefused?
    ensures IsSortOf(sl, lots, LOT_DATE) && IsSortOf(sd, disposals, DISPOSAL_DATE)
    ensures r.Harvested? ==>
      var fills := Run(m, sl, sd).fills;
      && FillsInRange(fills, |sl|, |sd|)
      && var events := EventsOf(sl, sd, fills);
         var recentBuy := RecentBuy(lots, cal);
         var candidates := CandidatesOf(lots, events, price, cal, recentBuy);
         var loss := LossOf(candidates);
         var ytd := RealizedIn(events, cal.yearStart, cal.asOf);
         r.result == HarvestResult(candidates, loss, -loss * 0.37, -loss * 0.20, ytd, ytd + loss,
                                   recentBuy && candidates != [])
  {
    var matched;
    matched, sl, sd := Match(lots, disposals, m);
    if matched.UnsupportedMethod? {
      return HarvestRefused(matched.name), sl, sd;
    }
    var events := matched.result.events;
    var consumed := ConsumedPerLot(events);
    var ytd := YearToDate(events, cal);
    var recentBuy := FindRecentBuy(lots, cal);
    var candidates, loss := FindCandidates(lots, consumed, events, price, cal, recentBuy);
    r := Harvested(HarvestResult(candidates, loss, -loss * 0.37, -loss * 0.20, ytd, ytd + loss,
                                 recentBuy && |candidates| > 0));
  }

  // ----- harvesting agrees with the matcher -----

  lemma {:induction false} TakenFromSnoc(fills: seq<Fill>, f: Fill, i: nat)
    ensures TakenFrom(fills + [f], i) == TakenFrom(fills, i) + if f.lot == i then f.sats else 0
  {
    TakenBelowConcat(fills, [f], i);
    TakenBelowConcat(fills, [f], i + 1);
    assert [f][1..] == [];
  }

  /** Per lot id, the events add up to what the matcher took. */
  lemma {:induction false} EventsOfLot(lots: seq<Lot>, disps: seq<Disposal>, fills: seq<Fill>, i: nat)
    requires FillsInRange(fills, |lots|, |disps|) && UniqueIds(lots) && i < |lots|
    ensures ConsumedOf(EventsOf(lots, disps, fills), lots[i].id) == TakenFrom(fills, i)
  {
    if fills != [] {
      var n := |fills| - 1;
      var f := fills[n];
      var events := EventsOf(lots, disps, fills);
      assert fills == fills[..n] + [f];
      assert events[..n] == EventsOf(lots, disps, fills[..n]);
      EventsOfLot(lots, disps, fills[..n], i);
      TakenFromSnoc(fills[..n], f, i);
      assert f in fills;
      assert events[n].lotID == lots[f.lot].id;
    }
  }

  ghost predicate Priced(events: seq<Event>, id: int, c: real) {
    forall k :: 0 <= k < |events| && events[k].lotID == id ==> events[k].costBasisUSD == c * events[k].amountSat as real
  }

  lemma Distribute(c: real, a: int, b: int)
    ensures c * (a + b) as real == c * a as real + c * b as real
  {
  }

  /** If every event of a lot is priced per satoshi, so is their total. */
  lemma {:induction false} BasisProportional(events: seq<Event>, id: int, c: real)
    requires Priced(events, id, c)
    ensures BasisOf(events, id) == c * ConsumedOf(events, id) as real
  {
    if events != [] {
      var n := |events| - 1;
      BasisProportional(events[..n], id, c);
      Distribute(c, ConsumedOf(events[..n], id), events[n].amountSat);
    }
  }

  /** With unique lot ids, what harvesting recomputes for a lot is what the matcher left in it. */
  lemma HarvestSeesMatcher(m: Method, sl: seq<Lot>, sd: seq<Disposal>, i: nat)
    requires UniqueIds(sl) && i < |sl|
    ensures var s := Run(m, sl, sd);
      FillsInRange(s.fills, |sl|, |sd|) && RemainingOf(sl[i], EventsOf(sl, sd, s.fills)) == s.rem[i]
  {
    RunFillsInRange(m, sl, sd);
    EventsOfLot(sl, sd, Run(m, sl, sd).fills, i);
    LotConserved(m, sl, sd, i);
  }

  lemma EventsPriced(lots: seq<Lot>, disps: seq<Disposal>, fills: seq<Fill>, i: nat)
    requires FillsInRange(fills, |lots|, |disps|) && UniqueIds(lots) && i < |lots|
    ensures Priced(EventsOf(lots, disps, fills), lots[i].id, lots[i].CostPerSat())
  {
    var events := EventsOf(lots, disps, fills);
    forall k | 0 <= k < |events| && events[k].lotID == lots[i].id
      ensures events[k].costBasisUSD == lots[i].CostPerSat() * events[k].amountSat as real
    {
      assert fills[k] in fills;
      assert events[k] == EventOf(lots[fills[k].lot], disps[fills[k].disp], fills[k].sats);
      assert fills[k].lot == i;
    }
  }

  lemma PriceSplits(price: real, amount: int, a: int, b: int)
    requires amount != 0 && a + b == amount
    ensures price / amount as real * a as real + price / amount as real * b as real == price
  {
    Distribute(price / amount as real, a, b);
  }

  /** What the events booked as basis, and what is left at the lot's unit cost, add up to its price. */
  ghost predicate BasisSplits(lot: Lot, events: seq<Event>) {
    BasisOf(events, lot.id) + lot.CostPerSat() * RemainingOf(lot, events) as real == lot.priceUSD
  }

  lemma LotBasisSplits(lot: Lot, events: seq<Event>)
    requires lot.amountSat != 0 && Priced(events, lot.id, lot.CostPerSat())
    ensures BasisSplits(lot, events)
  {
    BasisProportional(events, lot.id, lot.CostPerSat());
    PriceSplits(lot.priceUSD, lot.amountSat, ConsumedOf(events, lot.id), RemainingOf(lot, events));
  }

  /** Consumed plus remaining cost basis is the price paid, for every lot of non-zero size. */
  lemma BasisConserved(m: Method, sl: seq<Lot>, sd: seq<Disposal>, i: nat)
    requires UniqueIds(sl) && i < |sl| && sl[i].amountSat != 0
    ensures var fills := Run(m, sl, sd).fills;
      FillsInRange(fills, |sl|, |sd|) && BasisSplits(sl[i], EventsOf(sl, sd, fills))
  {
    RunFillsInRange(m, sl, sd);
    EventsPriced(sl, sd, Run(m, sl, sd).fills, i);
    LotBasisSplits(sl[i], EventsOf(sl, sd, Run(m, sl, sd).fills));
  }

  function OpenTotal(lots: seq<Lot>, events: seq<Event>): nat {
    if lots == [] then 0
    else OpenTotal(lots[..|lots| - 1], events) + Pos(RemainingOf(lots[|lots| - 1], events))
  }

  lemma {:induction false} OpenTotalIsHeld(lots: seq<Lot>, events: seq<Event>, rem: seq<int>, k: nat)
    requires k <= |lots| == |rem|
    requires forall i :: 0 <= i < |lots| ==> RemainingOf(lots[i], events) == rem[i]
    ensures OpenTotal(lots[..k], events) == Held(rem, k)
  {
    if k > 0 {
      assert lots[..k][..k - 1] == lots[..k - 1];
      OpenTotalIsHeld(lots, events, rem, k - 1);
    }
  }

  lemma OpenTotalOf(m: Method, sl: seq<Lot>, sd: seq<Disposal>)
    requires m == Fifo || m == Lifo
    requires Sorted(sl, sd) && UniqueIds(sl)
    ensures var fills := Run(m, sl, sd).fills;
      && FillsInRange(fills, |sl|, |sd|)
      && OpenTotal(sl, EventsOf(sl, sd, fills)) == Supply(sl, |sl|) - Best(sl, sd, 0)
  {
    RunFillsInRange(m, sl, sd);
    var events := EventsOf(sl, sd, Run(m, sl, sd).fills);
    forall i | 0 <= i < |sl|
      ensures RemainingOf(sl[i], events) == Run(m, sl, sd).rem[i]
    {
      HarvestSeesMatcher(m, sl, sd, i);
    }
    OpenTotalIsHeld(sl, events, Run(m, sl, sd).rem, |sl|);
    assert sl[..|sl|] == sl;
    BothMatchBest(m, sl, sd);
  }

  // ----- the input's order does not matter -----

  function OpenTerm(events: seq<Event>): Lot -> int {
    (l: Lot) => Pos(RemainingOf(l, events))
  }

  lemma {:induction false} OpenTotalIsSum(lots: seq<Lot>, events: seq<Event>)
    ensures OpenTotal(lots, events) == SumBy(lots, OpenTerm(events))
  {
    if lots != [] {
      OpenTotalIsSum(lots[..|lots| - 1], events);
      SumBySnoc(lots, OpenTerm(events));
    }
  }

  const BOUGHT: Lot -> int := (l: Lot) => Pos(l.amountSat)

  lemma {:induction false} SupplyIsSum(lots: seq<Lot>)
    ensures Supply(lots, |lots|) == SumBy(lots, BOUGHT)
  {
    if lots != [] {
      var n := |lots| - 1;
      SupplyIsSum(lots[..n]);
      HeldOfPrefix(Amounts(lots[..n]), Amounts(lots), n);
      SumBySnoc(lots, BOUGHT);
    }
  }

  /** What harvesting finds open, over the input as given, is what was bought less what was matched. */
  lemma OpenIsBoughtLessMatched(m: Method, lots: seq<Lot>, sl: seq<Lot>, disps: seq<Disposal>, sd: seq<Disposal>)
    requires m == Fifo || m == Lifo
    requires UniqueIds(lots) && IsSortOf(sl, lots, LOT_DATE) && IsSortOf(sd, disps, DISPOSAL_DATE)
    ensures OpenTotal(lots, EventsOfRun(m, sl, sd)) == SumBy(lots, BOUGHT) - TakenBelow(Run(m, sl, sd).fills, |sl|)
  {
    var events := EventsOfRun(m, sl, sd);
    UniqueIdsOrderless(lots, sl);
    OpenTotalOf(m, sl, sd);
    OpenTotalIsSum(lots, events);
    OpenTotalIsSum(sl, events);
    SumByPermutation(sl, lots, OpenTerm(events));
    SupplyIsSum(sl);
    SumByPermutation(sl, lots, BOUGHT);
    BothMatchBest(m, sl, sd);
    EventsTakeWhatLotsLose(m, sl, sd, |sl|);
  }

  /**
    The satoshis still open, as harvesting counts them over the input, are the same under FIFO and
    LIFO and for any two ways of sorting equal dates.
   */
  lemma OpenTotalMethodIndependent(m: Method, m': Method, lots: seq<Lot>, sl: seq<Lot>, sl': seq<Lot>,
                                   disps: seq<Disposal>, sd: seq<Disposal>, sd': seq<Disposal>)
    requires (m == Fifo || m == Lifo) && (m' == Fifo || m' == Lifo) && UniqueIds(lots)
    requires IsSortOf(sl, lots, LOT_DATE) && IsSortOf(sl', lots, LOT_DATE)
    requires IsSortOf(sd, disps, DISPOSAL_DATE) && IsSortOf(sd', disps, DISPOSAL_DATE)
    ensures OpenTotal(lots, EventsOfRun(m, sl, sd)) == OpenTotal(lots, EventsOfRun(m', sl', sd'))
  {
    OpenIsBoughtLessMatched(m, lots, sl, disps, sd);
    OpenIsBoughtLessMatched(m', lots, sl', disps, sd');
    TiesAndMethodDoNotMatter(m, m', lots, sl, sl', disps, sd, sd');
  }

  // ----- Form 8949 totals -----

  datatype TaxSummary = TaxSummary(
    totalProceeds: real, totalCostBasis: real, totalGainLoss: real,
    shortTermGainLoss: real, longTermGainLoss: real,
    shortTermCount: nat, longTermCount: nat, totalDisposals: nat, unmatchedSat: int)

  function GainOver(events: seq<Event>, longTerm: bool): real {
    if events == [] then 0.0
    else
      var e := events[|events| - 1];
      GainOver(events[..|events| - 1], longTerm) + (if e.isLongTerm == longTerm then e.gainLossUSD else 0.0)
  }

  function CountOver(events: seq<Event>, longTerm: bool): nat {
    if events == [] then 0
    else
      CountOver(events[..|events| - 1], longTerm) + (if events[|events| - 1].isLongTerm == longTerm then 1 else 0)
  }

  const PROCEEDS: Event -> real := (e: Event) => e.proceedsUSD
  const BASIS: Event -> real := (e: Event) => e.costBasisUSD

  function TotalOf(events: seq<Event>, amount: Event -> real): real {
    if events == [] then 0.0
    else TotalOf(events[..|events| - 1], amount) + amount(events[|events| - 1])
  }

  /** Every event's gain is its proceeds less its basis. */
  ghost predicate Balanced(events: seq<Event>) {
    forall k :: 0 <= k < |events| ==> events[k].gainLossUSD == events[k].proceedsUSD - events[k].costBasisUSD
  }

  method Summarize(mr: MatchResult) returns (s: TaxSummary)
    ensures s.totalProceeds == TotalOf(mr.events, PROCEEDS) && s.totalCostBasis == TotalOf(mr.events, BASIS)
    ensures s.shortTermGainLoss == GainOver(mr.events, false) && s.longTermGainLoss == GainOver(mr.events, true)
    ensures s.shortTermCount == CountOver(mr.events, false) && s.longTermCount == CountOver(mr.events, true)
    ensures s.shortTermCount + s.longTermCount == s.totalDisposals == |mr.events|
    ensures s.totalGainLoss == s.shortTermGainLoss + s.longTermGainLoss
    ensures Balanced(mr.events) ==> s.totalGainLoss == s.totalProceeds - s.totalCostBasis
    ensures s.unmatchedSat == mr.unmatchedSat
  {
    s := TaxSummary(0.0, 0.0, 0.0, 0.0, 0.0, 0, 0, |mr.events|, mr.unmatchedSat);
    for k := 0 to |mr.events|
      invariant s.unmatchedSat == mr.unmatchedSat && s.totalDisposals == |mr.events|
      invariant s.totalProceeds == TotalOf(mr.events[..k], PROCEEDS)
      invariant s.totalCostBasis == TotalOf(mr.events[..k], BASIS)
      invariant s.shortTermGainLoss == GainOver(mr.events[..k], false)
      invariant s.longTermGainLoss == GainOver(mr.events[..k], true)
      invariant s.shortTermCount == CountOver(mr.events[..k], false)
      invariant s.longTermCount == CountOver(mr.events[..k], true)
      invariant s.shortTermCount + s.longTermCount == k
      invariant s.totalGainLoss == s.shortTermGainLoss + s.longTermGainLoss
      invariant Balanced(mr.events) ==> s.totalGainLoss == s.totalProceeds - s.totalCostBasis
    {
      var e := mr.events[k];
      assert mr.events[..k + 1][..k] == mr.events[..k];
      s := s.(totalProceeds := s.totalProceeds + e.proceedsUSD,
              totalCostBasis := s.totalCostBasis + e.costBasisUSD,
              totalGainLoss := s.totalGainLoss + e.gainLossUSD);
      if e.isLongTerm {
        s := s.(longTermGainLoss := s.longTermGainLoss + e.gainLossUSD, longTermCount := s.longTermCount + 1);
      } else {
        s := s.(shortTermGainLoss := s.shortTermGainLoss + e.gainLossUSD, shortTermCount := s.shortTermCount + 1);
      }
    }
    assert mr.events[..|mr.events|] == mr.events;
  }

  /** The matcher's events are balanced, so its summary's gain is proceeds less basis. */
  lemma MatcherEventsBalanced(m: Method, sl: seq<Lot>, sd: seq<Disposal>)
    ensures FillsInRange(Run(m, sl, sd).fills, |sl|, |sd|)
    ensures Balanced(EventsOf(sl, sd, Run(m, sl, sd).fills))
  {
    RunFillsInRange(m, sl, sd);
  }
}
