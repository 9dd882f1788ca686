/**
  What the events of a match say, in numbers: how a disposal's proceeds and a lot's price are split
  over them, when a holding is long-term, and where they come from. No formula of the matcher is
  used here; the facts hold of its results.
 */
module EventFacts {
  import opened Sums
  import opened CostBasis
  import opened Draining
  import opened CostBasisTheorems
  import opened Causality
  import opened LiveEntries
  import opened Harvesting

  // ----- one event -----

  /** Only disposals of positive size have events. */
  lemma {:induction false} FillsNeedSize(m: Method, lots: seq<Lot>, disps: seq<Disposal>)
    ensures FillsInRange(Run(m, lots, disps).fills, |lots|, |disps|)
    ensures forall f :: f in Run(m, lots, disps).fills ==> disps[f.disp].amountSat > 0
  {
    RunFillsInRange(m, lots, disps);
    if disps != [] {
      var n := |disps| - 1;
      var s := Run(m, lots, disps[..n]);
      FillsNeedSize(m, lots, disps[..n]);
      StepFillsDated(m, lots, s.rem, disps[n], n);
      if disps[n].amountSat <= 0 {
        DrainNothing(s.rem, Order(m, lots, s.rem, disps[n].disposedAt), disps[n].amountSat, n);
      }
    }
  }

  /** The part is to the whole as its satoshis are to all of them. */
  predicate InShare(part: real, sats: int, whole: real, size: int) {
    part * size as real == whole * sats as real
  }

  lemma CrossMultiply(whole: real, size: int, part: int)
    requires size != 0
    ensures InShare(whole / size as real * part as real, part, whole, size)
  {
  }

  /** The event is a part of lot l and of disposal d, and tells both truly. */
  predicate IsPartOf(e: Event, l: Lot, d: Disposal) {
    && e.amountSat > 0 && l.amountSat > 0 && d.amountSat > 0
    && e.lotID == l.id && e.acquiredAt == l.acquiredAt
    && e.disposedAt == d.disposedAt && e.disposalSource == d.source && e.disposalExtID == d.externalID
    && (e.isLongTerm <==> e.disposedAt > e.acquiredAt + 31_536_000_000_000_000)
    && e.gainLossUSD == e.proceedsUSD - e.costBasisUSD
    && InShare(e.costBasisUSD, e.amountSat, l.priceUSD, l.amountSat)
    && InShare(e.proceedsUSD, e.amountSat, d.proceedsUSD, d.amountSat)
  }

  lemma EventIsPart(l: Lot, d: Disposal, sats: int)
    requires sats > 0 && l.amountSat > 0 && d.amountSat > 0
    ensures IsPartOf(EventOf(l, d, sats), l, d)
  {
    CrossMultiply(l.priceUSD, l.amountSat, sats);
    CrossMultiply(d.proceedsUSD, d.amountSat, sats);
  }

  /**
    Every event takes its share: its basis is to the lot's price, and its proceeds to the disposal's,
    as its satoshis are to theirs; it is long-term exactly when held for more than 365 days.
   */
  lemma EventsTakeShares(m: Method, lots: seq<Lot>, disps: seq<Disposal>, k: nat)
    requires k < |EventsOfRun(m, lots, disps)|
    ensures var f := Run(m, lots, disps).fills[k];
      && f.lot < |lots| && f.disp < |disps|
      && EventsOfRun(m, lots, disps)[k].amountSat == f.sats
      && IsPartOf(EventsOfRun(m, lots, disps)[k], lots[f.lot], disps[f.disp])
  {
    var f := Run(m, lots, disps).fills[k];
    EventDates(m, lots, disps, k);
    RunFillsInRange(m, lots, disps);
    FillsNeedSize(m, lots, disps);
    assert f in Run(m, lots, disps).fills;
    if lots[f.lot].amountSat <= 0 {
      RunWithout(m, lots, disps, f.lot);
    }
    EventIsPart(lots[f.lot], disps[f.disp], f.sats);
  }

  // ----- all events of one disposal -----

  /** The satoshis matched to disposal j. */
  function SatsTo(fills: seq<Fill>, j: nat): int {
    if fills == [] then 0
    else
      var f := fills[|fills| - 1];
      SatsTo(fills[..|fills| - 1], j) + (if f.disp == j then f.sats else 0)
  }

  /** The proceeds booked by the events of disposal j. */
  function ProceedsTo(events: seq<Event>, fills: seq<Fill>, j: nat): real
    requires |events| == |fills|
  {
    if fills == [] then 0.0
    else
      var n := |fills| - 1;
      ProceedsTo(events[..n], fills[..n], j) + (if fills[n].disp == j then events[n].proceedsUSD else 0.0)
  }

  ghost predicate SharesOf(events: seq<Event>, fills: seq<Fill>, j: nat, whole: real, size: int) {
    && |events| == |fills|
    && forall k :: 0 <= k < |fills| && fills[k].disp == j ==>
      InShare(events[k].proceedsUSD, fills[k].sats, whole, size)
  }

  lemma AddShares(a: real, m: int, b: real, n: int, whole: real, size: int)
    requires InShare(a, m, whole, size) && InShare(b, n, whole, size)
    ensures InShare(a + b, m + n, whole, size)
  {
  }

  lemma NoShare(whole: real, size: int)
    ensures InShare(0.0, 0, whole, size)
  {
  }

  lemma FullShare(part: real, whole: real, size: int)
    requires size > 0 && InShare(part, size, whole, size)
    ensures part == whole
  {
  }

  lemma {:induction false} SharesAddUp(events: seq<Event>, fills: seq<Fill>, j: nat, whole: real, size: int)
    requires SharesOf(events, fills, j, whole, size)
    ensures InShare(ProceedsTo(events, fills, j), SatsTo(fills, j), whole, size)
  {
    if fills == [] {
      NoShare(whole, size);
    } else {
      var n := |fills| - 1;
      var sum, sats := ProceedsTo(events[..n], fills[..n], j), SatsTo(fills[..n], j);
      SharesAddUp(events[..n], fills[..n], j, whole, size);
      if fills[n].disp == j {
        AddShares(sum, sats, events[n].proceedsUSD, fills[n].sats, whole, size);
      }
    }
  }

  lemma SharesHold(m: Method, lots: seq<Lot>, disps: seq<Disposal>, j: nat)
    requires j < |disps|
    ensures SharesOf(EventsOfRun(m, lots, disps), Run(m, lots, disps).fills, j,
                     disps[j].proceedsUSD, disps[j].amountSat)
  {
    var events, fills := EventsOfRun(m, lots, disps), Run(m, lots, disps).fills;
    forall k | 0 <= k < |fills| && fills[k].disp == j
      ensures InShare(events[k].proceedsUSD, fills[k].sats, disps[j].proceedsUSD, disps[j].amountSat)
    {
      EventsTakeShares(m, lots, disps, k);
    }
  }

  /** The events of a disposal book its proceeds in the proportion in which it was matched. */
  lemma ProceedsAreSplit(m: Method, lots: seq<Lot>, disps: seq<Disposal>, j: nat)
    requires j < |disps|
    ensures var fills := Run(m, lots, disps).fills;
      InShare(ProceedsTo(EventsOfRun(m, lots, disps), fills, j), SatsTo(fills, j),
              disps[j].proceedsUSD, disps[j].amountSat)
  {
    SharesHold(m, lots, disps, j);
    SharesAddUp(EventsOfRun(m, lots, disps), Run(m, lots, disps).fills, j, disps[j].proceedsUSD, disps[j].amountSat);
  }

  /** All of its proceeds, and no more, when it was matched in full. */
  lemma FullProceeds(m: Method, lots: seq<Lot>, disps: seq<Disposal>, j: nat)
    requires j < |disps| && disps[j].amountSat > 0
    requires SatsTo(Run(m, lots, disps).fills, j) == disps[j].amountSat
    ensures ProceedsTo(EventsOfRun(m, lots, disps), Run(m, lots, disps).fills, j) == disps[j].proceedsUSD
  {
    ProceedsAreSplit(m, lots, disps, j);
    FullShare(ProceedsTo(EventsOfRun(m, lots, disps), Run(m, lots, disps).fills, j),
              disps[j].proceedsUSD, disps[j].amountSat);
  }

  // ----- matched in full -----

  lemma {:induction false} SatsToConcat(a: seq<Fill>, b: seq<Fill>, j: nat)
    ensures SatsTo(a + b, j) == SatsTo(a, j) + SatsTo(b, j)
  {
    if b == [] {
      assert a + b == a;
    } else {
      var n := |b| - 1;
      assert (a + b)[..|a + b| - 1] == a + b[..n];
      SatsToConcat(a, b[..n], j);
    }
  }

  lemma SatsToSingle(f: Fill, j: nat)
    ensures SatsTo([f], j) == if f.disp == j then f.sats else 0
  {
    assert [f][..0] == [];
  }

  /** What a drain takes and what it leaves wanting make up what was asked for. */
  lemma {:induction false} DrainAccounts(rem: seq<int>, order: seq<nat>, need: int, disp: nat)
    ensures var d := Drain(rem, order, need, disp);
      SatsTo(d.fills, disp) + Pos(d.left) == Pos(need)
    decreases |order|
  {
    if order != [] && need > 0 {
      var i := order[0];
      if i >= |rem| || rem[i] <= 0 {
        DrainAccounts(rem, order[1..], need, disp);
      } else {
        var c := Min(rem[i], need);
        var rest := Drain(rem[i := rem[i] - c], order[1..], need - c, disp);
        DrainAccounts(rem[i := rem[i] - c], order[1..], need - c, disp);
        SatsToConcat([Fill(i, disp, c)], rest.fills, disp);
        SatsToSingle(Fill(i, disp, c), disp);
      }
    }
  }

  lemma {:induction false} NoSatsTo(fills: seq<Fill>, j: nat)
    requires forall f :: f in fills ==> f.disp != j
    ensures SatsTo(fills, j) == 0
  {
    if fills != [] {
      assert fills[|fills| - 1] in fills;
      NoSatsTo(fills[..|fills| - 1], j);
    }
  }

  /** What the last disposal adds: its own satoshis, and what it could not find. */
  lemma LastAccounts(m: Method, lots: seq<Lot>, disps: seq<Disposal>, j: nat)
    requires disps != [] && j < |disps|
    ensures var n := |disps| - 1;
      var s, s' := Run(m, lots, disps[..n]), Run(m, lots, disps);
      && s.unmatched <= s'.unmatched
      && (j < n ==> SatsTo(s'.fills, j) == SatsTo(s.fills, j))
      && (j == n ==> SatsTo(s'.fills, j) == Pos(disps[n].amountSat) - (s'.unmatched - s.unmatched))
  {
    var n := |disps| - 1;
    var s := Run(m, lots, disps[..n]);
    var order := Order(m, lots, s.rem, disps[n].disposedAt);
    var d := Drain(s.rem, order, disps[n].amountSat, n);
    RunFillsInRange(m, lots, disps[..n]);
    DrainFillsInRange(s.rem, order, disps[n].amountSat, n);
    DrainAccounts(s.rem, order, disps[n].amountSat, n);
    SatsToConcat(s.fills, d.fills, j);
    if j < n {
      NoSatsTo(d.fills, j);
    } else {
      NoSatsTo(s.fills, n);
    }
  }

  /** For every method: with nothing unmatched, each disposal is matched in full. */
  lemma {:induction false} NothingUnmatched(m: Method, lots: seq<Lot>, disps: seq<Disposal>, j: nat)
    requires j < |disps| && Run(m, lots, disps).unmatched <= 0
    ensures SatsTo(Run(m, lots, disps).fills, j) == Pos(disps[j].amountSat)
  {
    var n := |disps| - 1;
    LastAccounts(m, lots, disps, j);
    UnmatchedNat(m, lots, disps[..n]);
    if j < n {
      NothingUnmatched(m, lots, disps[..n], j);
    }
  }

  lemma {:induction false} UnmatchedNat(m: Method, lots: seq<Lot>, disps: seq<Disposal>)
    ensures Run(m, lots, disps).unmatched >= 0
  {
    if disps != [] {
      UnmatchedNat(m, lots, disps[..|disps| - 1]);
    }
  }

  // ----- the year's total -----

  /** What the disposals of positive size brought. */
  function Brought(disps: seq<Disposal>): real {
    if disps == [] then 0.0
    else
      var d := disps[|disps| - 1];
      Brought(disps[..|disps| - 1]) + (if d.amountSat > 0 then d.proceedsUSD else 0.0)
  }

  lemma {:induction false} TotalOfConcat(a: seq<Event>, b: seq<Event>, amount: Event -> real)
    ensures TotalOf(a + b, amount) == TotalOf(a, amount) + TotalOf(b, amount)
  {
    if b == [] {
      assert a + b == a;
    } else {
      var n := |b| - 1;
      assert (a + b)[..|a + b| - 1] == a + b[..n];
      TotalOfConcat(a, b[..n], amount);
    }
  }

  lemma {:induction false} AllToOne(events: seq<Event>, fills: seq<Fill>, j: nat)
    requires |events| == |fills| && forall f :: f in fills ==> f.disp == j
    ensures ProceedsTo(events, fills, j) == TotalOf(events, PROCEEDS)
  {
    if fills != [] {
      assert fills[|fills| - 1] in fills;
      AllToOne(events[..|fills| - 1], fills[..|fills| - 1], j);
    }
  }

  lemma {:induction false} ProceedsToConcat(a: seq<Event>, fa: seq<Fill>, b: seq<Event>, fb: seq<Fill>, j: nat)
    requires |a| == |fa| && |b| == |fb| && forall f :: f in fa ==> f.disp != j
    ensures ProceedsTo(a + b, fa + fb, j) == ProceedsTo(b, fb, j)
  {
    if fb == [] {
      assert a + b == a && fa + fb == fa;
      NoProceedsTo(a, fa, j);
    } else {
      var n := |fb| - 1;
      assert (a + b)[..|a + b| - 1] == a + b[..n] && (fa + fb)[..|fa + fb| - 1] == fa + fb[..n];
      ProceedsToConcat(a, fa, b[..n], fb[..n], j);
    }
  }

  lemma {:induction false} NoProceedsTo(events: seq<Event>, fills: seq<Fill>, j: nat)
    requires |events| == |fills| && forall f :: f in fills ==> f.disp != j
    ensures ProceedsTo(events, fills, j) == 0.0
  {
    if fills != [] {
      assert fills[|fills| - 1] in fills;
      NoProceedsTo(events[..|fills| - 1], fills[..|fills| - 1], j);
    }
  }

  /** The last disposal's events follow those before it. */
  lemma LastEvents(m: Method, lots: seq<Lot>, disps: seq<Disposal>) returns (events: seq<Event>, fills: seq<Fill>)
    requires disps != []
    ensures var n := |disps| - 1;
      && EventsOfRun(m, lots, disps) == EventsOfRun(m, lots, disps[..n]) + events
      && Run(m, lots, disps).fills == Run(m, lots, disps[..n]).fills + fills && |events| == |fills|
      && (forall f :: f in Run(m, lots, disps[..n]).fills ==> f.disp < n)
      && (forall f :: f in fills ==> f.disp == n)
  {
    var n := |disps| - 1;
    var before, all := EventsOfRun(m, lots, disps[..n]), EventsOfRun(m, lots, disps);
    fills := LastFills(m, lots, disps);
    events := all[|before|..];
    forall k | 0 <= k < |before|
      ensures before[k] == all[k]
    {
      EventDates(m, lots, disps[..n], k);
      EventDates(m, lots, disps, k);
    }
    assert all == all[..|before|] + events && all[..|before|] == before;
  }

  lemma LastProceeds(m: Method, lots: seq<Lot>, disps: seq<Disposal>)
    requires disps != []
    ensures var n := |disps| - 1;
      TotalOf(EventsOfRun(m, lots, disps), PROCEEDS)
      == TotalOf(EventsOfRun(m, lots, disps[..n]), PROCEEDS)
         + ProceedsTo(EventsOfRun(m, lots, disps), Run(m, lots, disps).fills, n)
  {
    var n := |disps| - 1;
    var events, fills := LastEvents(m, lots, disps);
    TotalOfConcat(EventsOfRun(m, lots, disps[..n]), events, PROCEEDS);
    ProceedsToConcat(EventsOfRun(m, lots, disps[..n]), Run(m, lots, disps[..n]).fills, events, fills, n);
    AllToOne(events, fills, n);
  }

  /** With nothing unmatched, the events book exactly what the disposals brought, under any method. */
  lemma {:induction false} NoProceedsLost(m: Method, lots: seq<Lot>, disps: seq<Disposal>)
    requires Run(m, lots, disps).unmatched <= 0
    ensures TotalOf(EventsOfRun(m, lots, disps), PROCEEDS) == Brought(disps)
  {
    if disps != [] {
      var n := |disps| - 1;
      LastAccounts(m, lots, disps, n);
      UnmatchedNat(m, lots, disps[..n]);
      NoProceedsLost(m, lots, disps[..n]);
      LastProceeds(m, lots, disps);
      if disps[n].amountSat > 0 {
        NothingUnmatched(m, lots, disps, n);
        FullProceeds(m, lots, disps, n);
      } else {
        FillsNeedSize(m, lots, disps);
        NoProceedsTo(EventsOfRun(m, lots, disps), Run(m, lots, disps).fills, n);
      }
    }
  }

  // ----- what is worth harvesting -----

  /** An open lot whose satoshis are worth less, at the price of a coin, than they cost. */
  predicate WorthHarvesting(lot: Lot, remain: int, price: real) {
    remain > 0 && price * lot.amountSat as real < lot.priceUSD * 100_000_000.0
  }

  lemma MarketIsLess(whole: real, size: int, price: real, part: int)
    requires size > 0 && part > 0
    ensures part as real / 100_000_000.0 * price < whole / size as real * part as real
       <==> price * size as real < whole * 100_000_000.0
  {
    var p, s, unit := part as real, size as real, whole / size as real;
    assert unit * s == whole;
    var gap := price / 100_000_000.0 - unit;
    assert p / 100_000_000.0 * price - unit * p == p * gap;
    assert price * s - whole * 100_000_000.0 == 100_000_000.0 * (gap * s);
    SameSign(p, s, gap);
  }

  lemma SameSign(p: real, s: real, gap: real)
    requires p > 0.0 && s > 0.0
    ensures p * gap < 0.0 <==> gap * s < 0.0
  {
    if gap < 0.0 {
      assert p * gap < 0.0 && gap * s < 0.0;
    } else {
      assert p * gap >= 0.0 && gap * s >= 0.0;
    }
  }

  /** A candidate tells its lot truly: its basis in share, its value at the price of a coin, and its term. */
  predicate Describes(c: Candidate, lot: Lot, remain: int, price: real, asOf: int, recentBuy: bool) {
    && c.lotID == lot.id && c.source == lot.source && c.externalID == lot.externalID
    && c.acquiredAt == lot.acquiredAt && c.remainSat == remain && c.washSaleRisk == recentBuy
    && InShare(c.costBasisUSD, remain, lot.priceUSD, lot.amountSat)
    && c.marketValueUSD * 100_000_000.0 == price * remain as real
    && c.unrealizedLoss == c.marketValueUSD - c.costBasisUSD
    && (c.isLongTerm <==> asOf > lot.acquiredAt + 31_536_000_000_000_000)
  }

  lemma CandidateDescribes(lot: Lot, remain: int, price: real, cal: Calendar, recentBuy: bool)
    requires lot.amountSat > 0 && remain > 0
    ensures Describes(CandidateOf(lot, remain, price, cal, recentBuy), lot, remain, price, cal.asOf, recentBuy)
    ensures IsLosing(lot, remain, price, cal) <==> WorthHarvesting(lot, remain, price)
  {
    var c := CandidateOf(lot, remain, price, cal, recentBuy);
    assert c.costBasisUSD == lot.priceUSD / lot.amountSat as real * remain as real;
    assert c.marketValueUSD == remain as real / 100_000_000.0 * price;
    CrossMultiply(lot.priceUSD, lot.amountSat, remain);
    MarketValue(price, remain);
    MarketIsLess(lot.priceUSD, lot.amountSat, price, remain);
    assert IsLosing(lot, remain, price, cal) <==> c.marketValueUSD < c.costBasisUSD;
  }

  lemma MarketValue(price: real, part: int)
    ensures part as real / 100_000_000.0 * price * 100_000_000.0 == price * part as real
  {
    var p := part as real / 100_000_000.0;
    assert p * 100_000_000.0 == part as real;
    assert p * price * 100_000_000.0 == price * (p * 100_000_000.0);
  }

  ghost predicate NoNegative(events: seq<Event>) {
    forall k :: 0 <= k < |events| ==> events[k].amountSat >= 0
  }

  lemma {:induction false} ConsumedIsPositive(events: seq<Event>, id: int)
    requires NoNegative(events)
    ensures ConsumedOf(events, id) >= 0
  {
    if events != [] {
      ConsumedIsPositive(events[..|events| - 1], id);
    }
  }

  /** Some lot of the list is worth harvesting, and the candidate describes it. */
  ghost predicate IsCandidate(c: Candidate, lots: seq<Lot>, events: seq<Event>, price: real, asOf: int,
                              recentBuy: bool) {
    exists i :: 0 <= i < |lots| && WorthHarvesting(lots[i], RemainingOf(lots[i], events), price)
      && Describes(c, lots[i], RemainingOf(lots[i], events), price, asOf, recentBuy)
  }

  /** Every candidate is a lot worth harvesting. */
  lemma {:induction false} CandidatesAreWorth(lots: seq<Lot>, events: seq<Event>, price: real, cal: Calendar,
                                              recentBuy: bool, c: Candidate)
    requires NoNegative(events) && c in CandidatesOf(lots, events, price, cal, recentBuy)
    ensures IsCandidate(c, lots, events, price, cal.asOf, recentBuy)
  {
    var n := |lots| - 1;
    var remain := RemainingOf(lots[n], events);
    ConsumedIsPositive(events, lots[n].id);
    if remain > 0 {
      CandidateDescribes(lots[n], remain, price, cal, recentBuy);
    }
    if c in CandidatesOf(lots[..n], events, price, cal, recentBuy) {
      CandidatesAreWorth(lots[..n], events, price, cal, recentBuy, c);
      var i :| 0 <= i < n && WorthHarvesting(lots[..n][i], RemainingOf(lots[..n][i], events), price)
        && Describes(c, lots[..n][i], RemainingOf(lots[..n][i], events), price, cal.asOf, recentBuy);
      assert lots[i] == lots[..n][i];
    }
  }

  /** Every lot worth harvesting is a candidate. */
  lemma {:induction false} WorthAreCandidates(lots: seq<Lot>, events: seq<Event>, price: real, cal: Calendar,
                                              recentBuy: bool, i: nat)
    requires NoNegative(events) && i < |lots| && WorthHarvesting(lots[i], RemainingOf(lots[i], events), price)
    ensures exists c :: c in CandidatesOf(lots, events, price, cal, recentBuy)
              && Describes(c, lots[i], RemainingOf(lots[i], events), price, cal.asOf, recentBuy)
  {
    var n := |lots| - 1;
    if i < n {
      WorthAreCandidates(lots[..n], events, price, cal, recentBuy, i);
    } else {
      var remain := RemainingOf(lots[n], events);
      ConsumedIsPositive(events, lots[n].id);
      CandidateDescribes(lots[n], remain, price, cal, recentBuy);
      assert CandidateOf(lots[n], remain, price, cal, recentBuy) in CandidatesOf(lots, events, price, cal, recentBuy);
    }
  }

  lemma MatcherNoNegative(m: Method, lots: seq<Lot>, disps: seq<Disposal>)
    ensures NoNegative(EventsOfRun(m, lots, disps))
  {
    forall k | 0 <= k < |EventsOfRun(m, lots, disps)|
      ensures EventsOfRun(m, lots, disps)[k].amountSat >= 0
    {
      EventsTakeShares(m, lots, disps, k);
    }
  }

  function SumOver(candidates: seq<Candidate>, amount: Candidate -> real): real {
    if candidates == [] then 0.0
    else SumOver(candidates[..|candidates| - 1], amount) + amount(candidates[|candidates| - 1])
  }

  const MARKET: Candidate -> real := (c: Candidate) => c.marketValueUSD
  const COST: Candidate -> real := (c: Candidate) => c.costBasisUSD

  /** The total loss is what the candidates are worth less what they cost. */
  lemma {:induction false} LossIsMarketLessCost(candidates: seq<Candidate>)
    requires forall k :: 0 <= k < |candidates| ==>
      candidates[k].unrealizedLoss == candidates[k].marketValueUSD - candidates[k].costBasisUSD
    ensures LossOf(candidates) == SumOver(candidates, MARKET) - SumOver(candidates, COST)
  {
    if candidates != [] {
      LossIsMarketLessCost(candidates[..|candidates| - 1]);
    }
  }

  // ----- realised gains by year -----

  /** Adjacent spans of time add up: each event counts in exactly one of them. */
  lemma {:induction false} SpansAddUp(events: seq<Event>, from: int, mid: int, to: int)
    requires from <= mid + 1 <= to + 1
    ensures RealizedIn(events, from, mid) + RealizedIn(events, mid + 1, to) == RealizedIn(events, from, to)
  {
    if events != [] {
      SpansAddUp(events[..|events| - 1], from, mid, to);
    }
  }

  const GAIN: Event -> real := (e: Event) => e.gainLossUSD

  /** A span that holds all events realises the sum of their gains, one that holds none realises nothing. */
  lemma {:induction false} WholeSpan(events: seq<Event>, from: int, to: int)
    ensures (forall k :: 0 <= k < |events| ==> from <= events[k].disposedAt <= to) ==>
      RealizedIn(events, from, to) == TotalOf(events, GAIN)
    ensures (forall k :: 0 <= k < |events| ==> events[k].disposedAt < from || events[k].disposedAt > to) ==>
      RealizedIn(events, from, to) == 0.0
  {
    if events != [] {
      WholeSpan(events[..|events| - 1], from, to);
    }
  }

  // ----- short and long terms -----

  lemma {:induction false} TermsConcat(a: seq<Event>, b: seq<Event>, longTerm: bool)
    ensures GainOver(a + b, longTerm) == GainOver(a, longTerm) + GainOver(b, longTerm)
    ensures CountOver(a + b, longTerm) == CountOver(a, longTerm) + CountOver(b, longTerm)
  {
    if b == [] {
      assert a + b == a;
    } else {
      var n := |b| - 1;
      assert (a + b)[..|a + b| - 1] == a + b[..n];
      TermsConcat(a, b[..n], longTerm);
    }
  }

  /** Events all of one term make up that term's gain and count, and nothing of the other's. */
  lemma {:induction false} OneTerm(events: seq<Event>, longTerm: bool)
    requires forall k :: 0 <= k < |events| ==> events[k].isLongTerm == longTerm
    ensures GainOver(events, longTerm) == TotalOf(events, GAIN) && GainOver(events, !longTerm) == 0.0
    ensures CountOver(events, longTerm) == |events| && CountOver(events, !longTerm) == 0
  {
    if events != [] {
      OneTerm(events[..|events| - 1], longTerm);
    }
  }
}
