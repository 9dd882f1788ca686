/**
  Equal dates. The sort is unstable, so lots of one date, and disposals of one date, may be taken in
  any order; this module proves for each exactly when that shows in the events.
 */
module Ties {
  import opened Sums
  import opened CostBasis
  import opened Draining
  import opened Optimality
  import opened CostBasisTheorems
  import opened Causality
  import opened LiveEntries

  // ----- sorts of the same entries -----

  function UpToTerm<T>(date: T -> int, t: int): T -> int {
    (x: T) => if date(x) <= t then 1 else 0
  }

  lemma {:induction false} SumOfCut<T>(s: seq<T>, date: T -> int, t: int, b: nat)
    requires b <= |s| && forall j :: 0 <= j < |s| ==> (date(s[j]) <= t <==> j < b)
    ensures SumBy(s, UpToTerm(date, t)) == b
  {
    if s != [] {
      SumOfCut(s[1..], date, t, if b > 0 then b - 1 else 0);
    }
  }

  /** Two sorts of the same entries have the same date at every place. */
  lemma SameDates<T>(s: seq<T>, s': seq<T>, date: T -> int, k: nat)
    requires multiset(s) == multiset(s') && SortedOn(s, date) && SortedOn(s', date) && k < |s|
    ensures k < |s'| && date(s[k]) == date(s'[k])
  {
    assert |s| == |multiset(s)| == |multiset(s')| == |s'|;
    NoLater(s, s', date, k);
    NoLater(s', s, date, k);
  }

  lemma NoLater<T>(s: seq<T>, s': seq<T>, date: T -> int, k: nat)
    requires multiset(s) == multiset(s') && SortedOn(s, date) && SortedOn(s', date) && k < |s| == |s'|
    ensures date(s'[k]) <= date(s[k])
  {
    var t := date(s[k]);
    var b := CutOfSorted(s, date, t);
    var b' := CutOfSorted(s', date, t);
    SumOfCut(s, date, t, b);
    SumOfCut(s', date, t, b');
    SumByPermutation(s, s', UpToTerm(date, t));
  }

  lemma SameElements<T(!new)>(a: seq<T>, b: seq<T>)
    requires multiset(a) == multiset(b)
    ensures forall x :: x in a <==> x in b
  {
    forall x
      ensures x in a <==> x in b
    {
      assert x in a <==> x in multiset(a);
      assert x in b <==> x in multiset(b);
    }
  }

  /** At each place of the live parts of two sorts stand live entries of the input, of one date. */
  lemma LivePlaces<T(!new)>(input: seq<T>, s: seq<T>, s': seq<T>, size: T -> int, date: T -> int, k: nat)
    requires IsSortOf(s, input, date) && IsSortOf(s', input, date)
    requires k < |Live(s, size)|
    ensures |Live(s, size)| == |Live(s', size)|
    ensures var x, y := Live(s, size)[k], Live(s', size)[k];
      x in input && y in input && size(x) > 0 && size(y) > 0 && date(x) == date(y)
  {
    LiveOfSorts(s, input, size, date);
    LiveOfSorts(s', input, size, date);
    var a, b := Live(s, size), Live(s', size);
    assert |a| == |multiset(a)| == |multiset(b)| == |b|;
    SameDates(a, b, date, k);
    LiveIn(s, size, a[k]);
    LiveIn(s', size, b[k]);
    SameElements(s, input);
    SameElements(s', input);
  }

  // ----- lot ids -----

  ghost predicate UniqueIds(lots: seq<Lot>) {
    forall i, j :: 0 <= i < j < |lots| ==> lots[i].id != lots[j].id
  }

  lemma {:induction false} IdCounts(lots: seq<Lot>, l: Lot)
    requires UniqueIds(lots)
    ensures multiset(lots)[l] <= 1
  {
    if lots != [] {
      assert lots == [lots[0]] + lots[1..];
      assert lots[0] !in lots[1..];
      IdCounts(lots[1..], l);
    }
  }

  lemma UniqueIdsOrderless(lots: seq<Lot>, sl: seq<Lot>)
    requires UniqueIds(lots) && multiset(sl) == multiset(lots)
    ensures UniqueIds(sl)
  {
    forall i, j | 0 <= i < j < |sl|
      ensures sl[i].id != sl[j].id
    {
      assert sl[i] in multiset(lots) && sl[j] in multiset(lots);
      if sl[i] == sl[j] {
        CountTwice(sl, i, j);
        IdCounts(lots, sl[j]);
      }
      var p :| 0 <= p < |lots| && lots[p] == sl[i];
      var q :| 0 <= q < |lots| && lots[q] == sl[j];
    }
  }

  // ----- one tie is enough -----

  function Swapped<T>(s: seq<T>, i: nat, j: nat): (r: seq<T>)
    requires i < j < |s|
    ensures |r| == |s| && r[i] == s[j] && r[j] == s[i]
    ensures forall k :: 0 <= k < |s| && k != i && k != j ==> r[k] == s[k]
  {
    s[i := s[j]][j := s[i]]
  }

  lemma SwapSorts<T>(s: seq<T>, i: nat, j: nat, date: T -> int)
    requires i < j < |s| && SortedOn(s, date) && date(s[i]) == date(s[j])
    ensures IsSortOf(Swapped(s, i, j), s, date)
  {
    var r := Swapped(s, i, j);
    assert forall k :: 0 <= k < |s| ==> date(r[k]) == date(s[k]);
  }

  lemma {:induction false} EligibleByDates(a: seq<Lot>, b: seq<Lot>, at: int)
    requires |a| == |b| && forall k :: 0 <= k < |a| ==> a[k].acquiredAt == b[k].acquiredAt
    ensures Eligible(a, at) == Eligible(b, at)
  {
    if a != [] {
      EligibleByDates(a[..|a| - 1], b[..|b| - 1], at);
    }
  }

  /** A disposal sized to end in lot k: one satoshi more than the lots the method takes before it. */
  function Reaching(m: Method, lots: seq<Lot>, k: nat): Disposal
    requires k < |lots|
  {
    var p := Eligible(lots, lots[k].acquiredAt);
    var before := if m.Lifo? && k < p then Held(Amounts(lots), p) - Held(Amounts(lots), k + 1)
                  else Held(Amounts(lots), k);
    Disposal(lots[k].acquiredAt, before + 1, 0.0, "", "", "")
  }

  lemma SingleRun(m: Method, lots: seq<Lot>, d: Disposal)
    ensures Run(m, lots, [d]).fills
         == Drain(Amounts(lots), Order(m, lots, Amounts(lots), d.disposedAt), d.amountSat, 0).fills
  {
    assert [d][..0] == [];
    assert Run(m, lots, [d][..0]) == State(Amounts(lots), [], 0);
  }

  lemma ReachingEnds(m: Method, lots: seq<Lot>, k: nat)
    requires SortedOn(lots, LOT_DATE) && k < |lots| && lots[k].amountSat > 0
    ensures var fills := Run(m, lots, [Reaching(m, lots, k)]).fills;
      EndsWith(fills, Fill(k, 0, 1))
  {
    var d := Reaching(m, lots, k);
    var p := Eligible(lots, d.disposedAt);
    assert k < p by {
      EligibleIsPrefix(lots, d.disposedAt);
    }
    SingleRun(m, lots, d);
    OrderIsWalk(m, lots, Amounts(lots), d.disposedAt);
    if m.Lifo? {
      LifoStopsAt(Amounts(lots), k, p, d.amountSat, 0);
    } else {
      FifoStopsAt(Amounts(lots), 0, k, p, d.amountSat, 0);
    }
  }

  lemma SwapReaches(m: Method, lots: seq<Lot>, i: nat, j: nat, k: nat)
    requires SortedOn(lots, LOT_DATE) && i < j < |lots| && lots[i].acquiredAt == lots[j].acquiredAt
    requires k == if m.Lifo? then j else i
    ensures Reaching(m, Swapped(lots, i, j), k) == Reaching(m, lots, k)
  {
    var lots' := Swapped(lots, i, j);
    var rem, rem' := Amounts(lots), Amounts(lots');
    var p := Eligible(lots, lots[k].acquiredAt);
    assert Eligible(lots', lots'[k].acquiredAt) == p by {
      EligibleByDates(lots, lots', lots[k].acquiredAt);
    }
    if m.Lifo? {
      assert j < p by {
        EligibleIsPrefix(lots, lots[j].acquiredAt);
      }
      assert Held(rem, p) - Held(rem, j + 1) == Held(rem', p) - Held(rem', j + 1) by {
        assert rem[j + 1..] == rem'[j + 1..];
        HeldFrame(rem, rem', j + 1, p);
      }
    } else {
      HeldOfPrefix(rem, rem', i);
    }
  }

  /** The last event is one satoshi of the lot the disposal was sized for. */
  lemma LastEvent(m: Method, lots: seq<Lot>, k: nat)
    requires SortedOn(lots, LOT_DATE) && k < |lots| && lots[k].amountSat > 0
    ensures var events := EventsOfRun(m, lots, [Reaching(m, lots, k)]);
      events != [] && events[|events| - 1].lotID == lots[k].id
  {
    ReachingEnds(m, lots, k);
    EventDates(m, lots, [Reaching(m, lots, k)], |Run(m, lots, [Reaching(m, lots, k)]).fills| - 1);
  }

  /**
    For every method and every sort of any lots: two lots of one date, different ids and positive
    size can be exchanged in it, and some disposal of that date then gets other events.
   */
  lemma AnyLotTieChangesEvents(m: Method, sl: seq<Lot>, i: nat, j: nat) returns (d: Disposal)
    requires SortedOn(sl, LOT_DATE) && i < j < |sl| && sl[i].acquiredAt == sl[j].acquiredAt
    requires sl[i].id != sl[j].id && sl[i].amountSat > 0 && sl[j].amountSat > 0
    ensures IsSortOf(Swapped(sl, i, j), sl, LOT_DATE) && d.disposedAt == sl[i].acquiredAt
    ensures EventsOfRun(m, sl, [d]) != EventsOfRun(m, Swapped(sl, i, j), [d])
  {
    var k := if m.Lifo? then j else i;
    d := Reaching(m, sl, k);
    SwapSorts(sl, i, j, LOT_DATE);
    SwapReaches(m, sl, i, j, k);
    LastEvent(m, sl, k);
    LastEvent(m, Swapped(sl, i, j), k);
  }

  // ----- exactly when the order of lots shows -----

  /** No two lots of positive size share a date. */
  ghost predicate NoLiveTies(lots: seq<Lot>) {
    forall x, y :: x in lots && y in lots && x.amountSat > 0 && y.amountSat > 0 && x.acquiredAt == y.acquiredAt
      ==> x == y
  }

  lemma LiveSortIsUnique(lots: seq<Lot>, sl: seq<Lot>, sl': seq<Lot>)
    requires NoLiveTies(lots) && IsSortOf(sl, lots, LOT_DATE) && IsSortOf(sl', lots, LOT_DATE)
    ensures Live(sl, LOT_SIZE) == Live(sl', LOT_SIZE)
  {
    var a, b := Live(sl, LOT_SIZE), Live(sl', LOT_SIZE);
    LiveOfSorts(sl, lots, LOT_SIZE, LOT_DATE);
    LiveOfSorts(sl', lots, LOT_SIZE, LOT_DATE);
    assert |a| == |multiset(a)| == |multiset(b)| == |b|;
    forall k | 0 <= k < |a|
      ensures a[k] == b[k]
    {
      LivePlaces(lots, sl, sl', LOT_SIZE, LOT_DATE, k);
    }
  }

  /** Whether a sort agrees on events with every other sort of the lots, for all disposals. */
  ghost predicate OrderNeverShows(m: Method, lots: seq<Lot>, sl: seq<Lot>) {
    forall sl': seq<Lot>, disps: seq<Disposal> :: IsSortOf(sl', lots, LOT_DATE) ==>
      EventsOfRun(m, sl, disps) == EventsOfRun(m, sl', disps)
  }

  /**
    How lots of equal date are sorted never shows in any events exactly when no two lots of positive
    size share a date.
   */
  lemma OrderShowsExactlyForLiveTies(m: Method, lots: seq<Lot>, sl: seq<Lot>)
    requires UniqueIds(lots) && IsSortOf(sl, lots, LOT_DATE)
    ensures OrderNeverShows(m, lots, sl) <==> NoLiveTies(lots)
  {
    if NoLiveTies(lots) {
      forall sl': seq<Lot>, disps: seq<Disposal> | IsSortOf(sl', lots, LOT_DATE)
        ensures EventsOfRun(m, sl, disps) == EventsOfRun(m, sl', disps)
      {
        LiveSortIsUnique(lots, sl, sl');
        LiveLotsDecide(m, sl, disps);
        LiveLotsDecide(m, sl', disps);
      }
    } else {
      var x, y :| x in lots && y in lots && x.amountSat > 0 && y.amountSat > 0
        && x.acquiredAt == y.acquiredAt && x != y;
      TieShows(m, lots, sl, x, y);
    }
  }

  lemma TieShows(m: Method, lots: seq<Lot>, sl: seq<Lot>, x: Lot, y: Lot)
    requires UniqueIds(lots) && IsSortOf(sl, lots, LOT_DATE)
    requires x in lots && y in lots && x != y && x.amountSat > 0 && y.amountSat > 0 && x.acquiredAt == y.acquiredAt
    ensures !OrderNeverShows(m, lots, sl)
  {
    SameElements(sl, lots);
    UniqueIdsOrderless(lots, sl);
    var p :| 0 <= p < |sl| && sl[p] == x;
    var q :| 0 <= q < |sl| && sl[q] == y;
    var i, j := if p < q then p else q, if p < q then q else p;
    var d := AnyLotTieChangesEvents(m, sl, i, j);
    assert IsSortOf(Swapped(sl, i, j), lots, LOT_DATE);
  }

  // ----- disposals of one date -----

  /** Two disposals that give the same events: they differ in their type at most. */
  predicate Alike(x: Disposal, y: Disposal) {
    x.(txType := "") == y.(txType := "")
  }

  lemma {:induction false} AlikeRuns(m: Method, lots: seq<Lot>, a: seq<Disposal>, b: seq<Disposal>)
    requires |a| == |b| && forall k :: 0 <= k < |a| ==> Alike(a[k], b[k])
    ensures Run(m, lots, a) == Run(m, lots, b)
  {
    if a != [] {
      AlikeRuns(m, lots, a[..|a| - 1], b[..|b| - 1]);
    }
  }

  lemma AlikeEvents(m: Method, lots: seq<Lot>, a: seq<Disposal>, b: seq<Disposal>)
    requires |a| == |b| && forall k :: 0 <= k < |a| ==> Alike(a[k], b[k])
    ensures EventsOfRun(m, lots, a) == EventsOfRun(m, lots, b)
  {
    AlikeRuns(m, lots, a, b);
    var e, e' := EventsOfRun(m, lots, a), EventsOfRun(m, lots, b);
    forall k | 0 <= k < |e|
      ensures e[k] == e'[k]
    {
      EventDates(m, lots, a, k);
      EventDates(m, lots, b, k);
    }
  }

  /** No run takes more than its disposals ask for. */
  lemma {:induction false} TakenWithinDemand(m: Method, lots: seq<Lot>, disps: seq<Disposal>, k: nat)
    ensures TakenBelow(Run(m, lots, disps).fills, k) <= Demand(disps)
  {
    if disps != [] {
      var n := |disps| - 1;
      var s := Run(m, lots, disps[..n]);
      var order := Order(m, lots, s.rem, disps[n].disposedAt);
      TakenWithinDemand(m, lots, disps[..n], k);
      DrainWithinNeed(s.rem, order, disps[n].amountSat, n, k);
      TakenBelowConcat(s.fills, Drain(s.rem, order, disps[n].amountSat, n).fills, k);
    }
  }

  /** From a single open lot a disposal takes one fill. */
  lemma SingleLotFill(m: Method, l: Lot, rem: seq<int>, d: Disposal, disp: nat)
    requires |rem| == 1 && rem[0] > 0 && l.acquiredAt <= d.disposedAt && d.amountSat > 0
    ensures Drain(rem, Order(m, [l], rem, d.disposedAt), d.amountSat, disp).fills
         == [Fill(0, disp, Min(rem[0], d.amountSat))]
  {
    assert CandidatesFrom([l], rem, d.disposedAt, 1) == [];
    assert CandidatesFrom([l], rem, d.disposedAt, 0) == [0];
    assert Reverse([0 as nat]) == [0];
    assert [0 as nat] + [] == [0];
    DrainHead(rem, 0, [], d.amountSat, disp);
  }

  lemma StillHolds(m: Method, l: Lot, disps: seq<Disposal>, x: nat)
    requires x > 0 && l.amountSat >= Demand(disps) + x
    ensures Run(m, [l], disps).rem[0] >= x
  {
    EventsTakeWhatLotsLose(m, [l], disps, 1);
    TakenWithinDemand(m, [l], disps, 1);
    var rem := Run(m, [l], disps).rem;
    assert Held(Amounts([l]), 1) == Held(Amounts([l]), 0) + Pos(l.amountSat);
    assert Held(rem, 1) == Held(rem, 0) + Pos(rem[0]);
  }

  /** With a single lot that outlasts the first i disposals and the next, the next event is all of that disposal. */
  lemma NextEvent(m: Method, l: Lot, sd: seq<Disposal>, i: nat)
    requires i < |sd| && sd[i].amountSat > 0 && l.acquiredAt <= sd[i].disposedAt
    requires l.amountSat >= Demand(sd[..i]) + sd[i].amountSat
    ensures var n, events := |Run(m, [l], sd[..i]).fills|, EventsOfRun(m, [l], sd);
      n < |events| && events[n] == EventOf(l, sd[i], sd[i].amountSat)
  {
    var s := Run(m, [l], sd[..i]);
    StillHolds(m, l, sd[..i], sd[i].amountSat);
    SingleLotFill(m, l, s.rem, sd[i], i);
    assert sd[..i + 1][..i] == sd[..i];
    assert Run(m, [l], sd[..i + 1]) == Step(m, [l], s, sd[i], i);
    RunExtends(m, [l], sd, i + 1);
    EventDates(m, [l], sd, |s.fills|);
  }

  lemma WholeProceeds(d: Disposal)
    requires d.amountSat > 0
    ensures d.ProceedsPerSat() * d.amountSat as real == d.proceedsUSD
  {
  }

  /** The event of a whole disposal tells everything of it but its type. */
  lemma EventTells(l: Lot, x: Disposal, y: Disposal)
    requires x.amountSat > 0 && y.amountSat > 0 && EventOf(l, x, x.amountSat) == EventOf(l, y, y.amountSat)
    ensures Alike(x, y)
  {
    WholeProceeds(x);
    WholeProceeds(y);
  }

  /**
    For every method and every sort of any disposals: two of one date and positive size that are not
    alike can be exchanged in it, and some lot then gets other events.
   */
  lemma AnyDisposalTieChangesEvents(m: Method, sd: seq<Disposal>, i: nat, j: nat) returns (l: Lot)
    requires SortedOn(sd, DISPOSAL_DATE) && i < j < |sd| && sd[i].disposedAt == sd[j].disposedAt
    requires sd[i].amountSat > 0 && sd[j].amountSat > 0 && !Alike(sd[i], sd[j])
    ensures IsSortOf(Swapped(sd, i, j), sd, DISPOSAL_DATE)
    ensures EventsOfRun(m, [l], sd) != EventsOfRun(m, [l], Swapped(sd, i, j))
  {
    var sd' := Swapped(sd, i, j);
    l := Lot(0, sd[i].disposedAt, Demand(sd[..i]) + sd[i].amountSat + sd[j].amountSat, 0.0, "", "", 0);
    SwapSorts(sd, i, j, DISPOSAL_DATE);
    assert sd'[..i] == sd[..i];
    NextEvent(m, l, sd, i);
    NextEvent(m, l, sd', i);
    if EventOf(l, sd[i], sd[i].amountSat) == EventOf(l, sd[j], sd[j].amountSat) {
      EventTells(l, sd[i], sd[j]);
    }
  }

  // ----- exactly when the order of disposals shows -----

  /** Any two disposals of positive size and one date are alike. */
  ghost predicate LiveTiesAlike(disps: seq<Disposal>) {
    forall x, y :: x in disps && y in disps && x.amountSat > 0 && y.amountSat > 0 && x.disposedAt == y.disposedAt
      ==> Alike(x, y)
  }

  /** Whether a sort agrees on events with every other sort of the disposals, for all lots. */
  ghost predicate DisposalOrderNeverShows(m: Method, disps: seq<Disposal>, sd: seq<Disposal>) {
    forall sd': seq<Disposal>, lots: seq<Lot> :: IsSortOf(sd', disps, DISPOSAL_DATE) ==>
      EventsOfRun(m, lots, sd) == EventsOfRun(m, lots, sd')
  }

  lemma LiveTiesHide(m: Method, lots: seq<Lot>, disps: seq<Disposal>, sd: seq<Disposal>, sd': seq<Disposal>)
    requires LiveTiesAlike(disps) && IsSortOf(sd, disps, DISPOSAL_DATE) && IsSortOf(sd', disps, DISPOSAL_DATE)
    ensures EventsOfRun(m, lots, sd) == EventsOfRun(m, lots, sd')
  {
    var a, b := Live(sd, DISPOSAL_SIZE), Live(sd', DISPOSAL_SIZE);
    LiveOfSorts(sd, disps, DISPOSAL_SIZE, DISPOSAL_DATE);
    LiveOfSorts(sd', disps, DISPOSAL_SIZE, DISPOSAL_DATE);
    assert |a| == |multiset(a)| == |multiset(b)| == |b|;
    forall k | 0 <= k < |a|
      ensures Alike(a[k], b[k])
    {
      LivePlaces(disps, sd, sd', DISPOSAL_SIZE, DISPOSAL_DATE, k);
    }
    AlikeEvents(m, lots, a, b);
    LiveDisposalsDecide(m, lots, sd);
    LiveDisposalsDecide(m, lots, sd');
  }

  lemma DisposalTieShows(m: Method, disps: seq<Disposal>, sd: seq<Disposal>, x: Disposal, y: Disposal)
    requires IsSortOf(sd, disps, DISPOSAL_DATE) && x in disps && y in disps && !Alike(x, y)
    requires x.amountSat > 0 && y.amountSat > 0 && x.disposedAt == y.disposedAt
    ensures !DisposalOrderNeverShows(m, disps, sd)
  {
    SameElements(sd, disps);
    var p :| 0 <= p < |sd| && sd[p] == x;
    var q :| 0 <= q < |sd| && sd[q] == y;
    var i, j := if p < q then p else q, if p < q then q else p;
    var l := AnyDisposalTieChangesEvents(m, sd, i, j);
    assert IsSortOf(Swapped(sd, i, j), disps, DISPOSAL_DATE);
  }

  /**
    How disposals of equal date are sorted never shows in any events exactly when any two of positive
    size and one date are alike: same size, proceeds and origin.
   */
  lemma DisposalOrderShowsExactly(m: Method, disps: seq<Disposal>, sd: seq<Disposal>)
    requires IsSortOf(sd, disps, DISPOSAL_DATE)
    ensures DisposalOrderNeverShows(m, disps, sd) <==> LiveTiesAlike(disps)
  {
    if LiveTiesAlike(disps) {
      forall sd': seq<Disposal>, lots: seq<Lot> | IsSortOf(sd', disps, DISPOSAL_DATE)
        ensures EventsOfRun(m, lots, sd) == EventsOfRun(m, lots, sd')
      {
        LiveTiesHide(m, lots, disps, sd, sd');
      }
    } else {
      var x, y :| x in disps && y in disps && x.amountSat > 0 && y.amountSat > 0
        && x.disposedAt == y.disposedAt && !Alike(x, y);
      DisposalTieShows(m, disps, sd, x, y);
    }
  }

  /** Both at once: with neither kind of tie, the events are the same for any two sorts of both inputs. */
  lemma WithoutTiesSortsAgree(m: Method, lots: seq<Lot>, sl: seq<Lot>, sl': seq<Lot>,
                              disps: seq<Disposal>, sd: seq<Disposal>, sd': seq<Disposal>)
    requires NoLiveTies(lots) && LiveTiesAlike(disps)
    requires IsSortOf(sl, lots, LOT_DATE) && IsSortOf(sl', lots, LOT_DATE)
    requires IsSortOf(sd, disps, DISPOSAL_DATE) && IsSortOf(sd', disps, DISPOSAL_DATE)
    ensures EventsOfRun(m, sl, sd) == EventsOfRun(m, sl', sd')
  {
    LiveTiesHide(m, sl, disps, sd, sd');
    LiveSortIsUnique(lots, sl, sl');
    LiveLotsDecide(m, sl, sd');
    LiveLotsDecide(m, sl', sd');
  }
}
