/**
  Entries of no positive size. Swan withdrawals enter as lots with negative amounts, and a disposal
  may be of zero size; the matcher passes over both, and neither leaves a trace in the events,
  wherever it stands and whatever date it shares.
 */
module LiveEntries {
  import opened Sums
  import opened CostBasis
  import opened Draining
  import opened CostBasisTheorems
  import opened Causality

  const LOT_SIZE: Lot -> int := (l: Lot) => l.amountSat
  const DISPOSAL_SIZE: Disposal -> int := (d: Disposal) => d.amountSat

  // ----- the entries that can be matched -----

  function Live<T>(s: seq<T>, size: T -> int): seq<T> {
    if s == [] then []
    else if size(s[0]) > 0 then [s[0]] + Live(s[1..], size)
    else Live(s[1..], size)
  }

  lemma {:induction false} LiveConcat<T>(s: seq<T>, t: seq<T>, size: T -> int)
    ensures Live(s + t, size) == Live(s, size) + Live(t, size)
  {
    if s == [] {
      assert s + t == t;
    } else {
      assert (s + t)[1..] == s[1..] + t;
      LiveConcat(s[1..], t, size);
    }
  }

  lemma LiveSnoc<T>(s: seq<T>, x: T, size: T -> int)
    ensures Live(s + [x], size) == Live(s, size) + (if size(x) > 0 then [x] else [])
  {
    LiveConcat(s, [x], size);
    assert [x][1..] == [];
  }

  lemma {:induction false} LiveMembers<T>(s: seq<T>, size: T -> int, x: T)
    ensures multiset(Live(s, size))[x] == if size(x) > 0 then multiset(s)[x] else 0
  {
    if s != [] {
      assert s == [s[0]] + s[1..];
      LiveMembers(s[1..], size, x);
    }
  }

  lemma LiveIn<T>(s: seq<T>, size: T -> int, x: T)
    ensures x in Live(s, size) <==> x in s && size(x) > 0
  {
    LiveMembers(s, size, x);
    assert x in Live(s, size) <==> x in multiset(Live(s, size));
    assert x in s <==> x in multiset(s);
  }

  lemma {:induction false} LiveSorted<T>(s: seq<T>, size: T -> int, date: T -> int)
    requires SortedOn(s, date)
    ensures SortedOn(Live(s, size), date)
  {
    if s != [] {
      LiveSorted(s[1..], size, date);
      var rest := Live(s[1..], size);
      forall k | 0 <= k < |rest|
        ensures date(s[0]) <= date(rest[k])
      {
        LiveIn(s[1..], size, rest[k]);
        var j :| 0 <= j < |s[1..]| && s[1..][j] == rest[k];
        assert s[j + 1] == rest[k];
      }
    }
  }

  lemma LiveOfSorts<T(!new)>(sorted: seq<T>, s: seq<T>, size: T -> int, date: T -> int)
    requires IsSortOf(sorted, s, date)
    ensures IsSortOf(Live(sorted, size), Live(s, size), date)
  {
    LiveSorted(sorted, size, date);
    forall x
      ensures multiset(Live(sorted, size))[x] == multiset(Live(s, size))[x]
    {
      LiveMembers(sorted, size, x);
      LiveMembers(s, size, x);
    }
  }

  // ----- lots of no positive size -----

  /** An index into the lots, once lot i is gone. */
  function Down(i: nat, k: nat): nat
    requires k != i
  {
    if k < i then k else k - 1
  }

  function DownAll(i: nat, order: seq<nat>): (r: seq<nat>)
    requires i !in order
    ensures |r| == |order| && forall k :: 0 <= k < |order| ==> r[k] == Down(i, order[k])
  {
    seq(|order|, k requires 0 <= k < |order| => assert order[k] in order; Down(i, order[k]))
  }

  function DownFills(i: nat, fills: seq<Fill>): (r: seq<Fill>)
    requires forall f :: f in fills ==> f.lot != i
    ensures |r| == |fills|
    ensures forall k :: 0 <= k < |fills| ==> fills[k].lot != i && r[k] == fills[k].(lot := Down(i, fills[k].lot))
  {
    seq(|fills|, k requires 0 <= k < |fills| => assert fills[k] in fills; fills[k].(lot := Down(i, fills[k].lot)))
  }

  /** The position that lots k, k+1, ... begin at, once lot i is gone. */
  function From(i: nat, k: nat): nat {
    if k <= i then k else k - 1
  }

  lemma {:induction false} CandidatesWithout(lots: seq<Lot>, rem: seq<int>, at: int, i: nat, k: nat)
    requires |rem| == |lots| && i < |lots| && rem[i] <= 0 && k <= |lots|
    ensures i !in CandidatesFrom(lots, rem, at, k)
    ensures CandidatesFrom(Without(lots, i), Without(rem, i), at, From(i, k))
         == DownAll(i, CandidatesFrom(lots, rem, at, k))
    decreases |lots| - k
  {
    if k < |lots| {
      CandidatesWithout(lots, rem, at, i, k + 1);
      var rest := CandidatesFrom(lots, rem, at, k + 1);
      if k == i {
        assert CandidatesFrom(lots, rem, at, k) == rest;
      } else {
        assert Without(lots, i)[Down(i, k)] == lots[k] && Without(rem, i)[Down(i, k)] == rem[k];
        assert From(i, k) == Down(i, k) && From(i, k + 1) == Down(i, k) + 1;
        DownAllCons(i, k, rest);
      }
    }
  }

  lemma DownAllCons(i: nat, k: nat, rest: seq<nat>)
    requires k != i && i !in rest
    ensures i !in [k] + rest && DownAll(i, [k] + rest) == [Down(i, k)] + DownAll(i, rest)
  {
  }

  lemma DownReversed(i: nat, order: seq<nat>)
    requires i !in order
    ensures i !in Reverse(order) && Reverse(DownAll(i, order)) == DownAll(i, Reverse(order))
  {
    var r, d := Reverse(order), DownAll(i, order);
    forall k | 0 <= k < |order|
      ensures r[k] in order && r[k] == order[|order| - 1 - k]
    {
    }
    assert i !in r;
    var rd, dr := Reverse(d), DownAll(i, r);
    assert |rd| == |dr|;
    forall k | 0 <= k < |rd|
      ensures rd[k] == dr[k]
    {
      assert rd[k] == d[|d| - 1 - k];
      assert dr[k] == Down(i, r[k]);
    }
  }

  lemma OrderWithout(m: Method, lots: seq<Lot>, rem: seq<int>, at: int, i: nat)
    requires |rem| == |lots| && i < |lots| && rem[i] <= 0
    ensures i !in Order(m, lots, rem, at)
    ensures Order(m, Without(lots, i), Without(rem, i), at) == DownAll(i, Order(m, lots, rem, at))
  {
    CandidatesWithout(lots, rem, at, i, 0);
    DownReversed(i, CandidatesFrom(lots, rem, at, 0));
  }

  lemma DownFillsCons(i: nat, f: Fill, rest: seq<Fill>)
    requires f.lot != i && forall g :: g in rest ==> g.lot != i
    ensures forall g :: g in [f] + rest ==> g.lot != i
    ensures DownFills(i, [f] + rest) == [f.(lot := Down(i, f.lot))] + DownFills(i, rest)
  {
  }

  lemma DownFillsConcat(i: nat, a: seq<Fill>, b: seq<Fill>)
    requires (forall f :: f in a ==> f.lot != i) && forall f :: f in b ==> f.lot != i
    ensures forall f :: f in a + b ==> f.lot != i
    ensures DownFills(i, a + b) == DownFills(i, a) + DownFills(i, b)
  {
  }

  lemma WithoutAt(rem: seq<int>, i: nat, k: nat, v: int)
    requires i < |rem| && k < |rem| && k != i
    ensures Down(i, k) < |Without(rem, i)| && Without(rem, i)[Down(i, k)] == rem[k]
    ensures Without(rem[k := v], i) == Without(rem, i)[Down(i, k) := v]
  {
  }

  /** The first lot of the order is drained, or passed over, alike in both. */
  lemma TakeWithout(rem: seq<int>, k: nat, tail: seq<nat>, need: int, disp: nat, i: nat, c: int, rem': seq<int>)
    requires i < |rem| && k < |rem| && k != i && i !in tail && need > 0 && rem[k] > 0
    requires c == Min(rem[k], need) && rem' == rem[k := rem[k] - c]
    ensures Drain(Without(rem, i), [Down(i, k)] + DownAll(i, tail), need, disp)
         == Drain(Without(rem', i), DownAll(i, tail), need - c, disp).After([Fill(Down(i, k), disp, c)])
  {
    WithoutAt(rem, i, k, rem[k] - c);
    DrainHead(Without(rem, i), Down(i, k), DownAll(i, tail), need, disp);
  }

  lemma DrainSkips(rem: seq<int>, k: nat, tail: seq<nat>, need: int, disp: nat)
    requires need > 0 && (k < |rem| ==> rem[k] <= 0)
    ensures Drain(rem, [k] + tail, need, disp) == Drain(rem, tail, need, disp)
  {
    assert ([k] + tail)[1..] == tail;
  }

  lemma {:induction false} DrainWithout(rem: seq<int>, order: seq<nat>, need: int, disp: nat, i: nat)
    requires i < |rem| && i !in order
    ensures var d, d' := Drain(rem, order, need, disp), Drain(Without(rem, i), DownAll(i, order), need, disp);
      && (forall f :: f in d.fills ==> f.lot != i) && d.rem[i] == rem[i]
      && d'.rem == Without(d.rem, i) && d'.fills == DownFills(i, d.fills) && d'.left == d.left
    decreases |order|
  {
    if order != [] && need > 0 {
      var k, tail := order[0], order[1..];
      assert k in order && order == [k] + tail;
      DownAllCons(i, k, tail);
      assert DownAll(i, order) == [Down(i, k)] + DownAll(i, tail);
      if k >= |rem| || rem[k] <= 0 {
        if k < |rem| {
          WithoutAt(rem, i, k, 0);
        }
        DrainSkips(rem, k, tail, need, disp);
        DrainSkips(Without(rem, i), Down(i, k), DownAll(i, tail), need, disp);
        DrainWithout(rem, tail, need, disp, i);
      } else {
        var c := Min(rem[k], need);
        var rem' := rem[k := rem[k] - c];
        DrainHead(rem, k, tail, need, disp);
        TakeWithout(rem, k, tail, need, disp, i, c, rem');
        DrainWithout(rem', tail, need - c, disp, i);
        var rest := Drain(rem', tail, need - c, disp);
        assert Drain(rem, order, need, disp) == rest.After([Fill(k, disp, c)]);
        DownFillsCons(i, Fill(k, disp, c), rest.fills);
      }
    }
  }

  lemma StepWithout(m: Method, lots: seq<Lot>, s: State, s': State, d: Disposal, disp: nat, i: nat)
    requires i < |lots| == |s.rem| && s.rem[i] <= 0 && s'.rem == Without(s.rem, i)
    requires (forall f :: f in s.fills ==> f.lot != i) && s'.fills == DownFills(i, s.fills)
    ensures var r, r' := Step(m, lots, s, d, disp), Step(m, Without(lots, i), s', d, disp);
      && (forall f :: f in r.fills ==> f.lot != i) && r.rem[i] <= 0
      && r'.rem == Without(r.rem, i) && r'.fills == DownFills(i, r.fills)
  {
    var order := Order(m, lots, s.rem, d.disposedAt);
    OrderWithout(m, lots, s.rem, d.disposedAt, i);
    DrainWithout(s.rem, order, d.amountSat, disp, i);
    DownFillsConcat(i, s.fills, Drain(s.rem, order, d.amountSat, disp).fills);
  }

  lemma {:induction false} RunWithout(m: Method, lots: seq<Lot>, disps: seq<Disposal>, i: nat)
    requires i < |lots| && lots[i].amountSat <= 0
    ensures var s, s' := Run(m, lots, disps), Run(m, Without(lots, i), disps);
      && (forall f :: f in s.fills ==> f.lot != i) && s.rem[i] <= 0
      && s'.rem == Without(s.rem, i) && s'.fills == DownFills(i, s.fills)
  {
    if disps == [] {
      assert Amounts(Without(lots, i)) == Without(Amounts(lots), i);
    } else {
      var n := |disps| - 1;
      RunWithout(m, lots, disps[..n], i);
      StepWithout(m, lots, Run(m, lots, disps[..n]), Run(m, Without(lots, i), disps[..n]), disps[n], n, i);
    }
  }

  lemma EventsWithout(m: Method, lots: seq<Lot>, disps: seq<Disposal>, i: nat)
    requires i < |lots| && lots[i].amountSat <= 0
    ensures EventsOfRun(m, Without(lots, i), disps) == EventsOfRun(m, lots, disps)
  {
    RunWithout(m, lots, disps, i);
    var e, e' := EventsOfRun(m, lots, disps), EventsOfRun(m, Without(lots, i), disps);
    forall k | 0 <= k < |e|
      ensures e[k] == e'[k]
    {
      EventDates(m, lots, disps, k);
      EventDates(m, Without(lots, i), disps, k);
    }
  }

  /** The lots with those from k on reduced to the live ones. */
  function LiveFrom(lots: seq<Lot>, k: nat): seq<Lot>
    requires k <= |lots|
  {
    lots[..k] + Live(lots[k..], LOT_SIZE)
  }

  lemma LiveFromKeeps(lots: seq<Lot>, k: nat)
    requires k < |lots| && lots[k].amountSat > 0
    ensures LiveFrom(lots, k) == LiveFrom(lots, k + 1)
  {
    assert lots[k..][1..] == lots[k + 1..];
  }

  lemma LiveFromDrops(lots: seq<Lot>, k: nat)
    requires k < |lots| && lots[k].amountSat <= 0
    ensures k < |LiveFrom(lots, k + 1)| && LiveFrom(lots, k + 1)[k] == lots[k]
    ensures LiveFrom(lots, k) == Without(LiveFrom(lots, k + 1), k)
  {
    assert lots[k..][1..] == lots[k + 1..];
  }

  /** Lots of zero or negative size, wherever they stand, leave no trace in the events. */
  lemma {:induction false} DeadLotsDoNotMatter(m: Method, lots: seq<Lot>, disps: seq<Disposal>, k: nat)
    requires k <= |lots|
    ensures EventsOfRun(m, LiveFrom(lots, k), disps) == EventsOfRun(m, lots, disps)
    decreases |lots| - k
  {
    if k == |lots| {
      assert LiveFrom(lots, k) == lots;
    } else {
      DeadLotsDoNotMatter(m, lots, disps, k + 1);
      if lots[k].amountSat > 0 {
        LiveFromKeeps(lots, k);
      } else {
        LiveFromDrops(lots, k);
        EventsWithout(m, LiveFrom(lots, k + 1), disps, k);
      }
    }
  }

  /** The events are those of the lots that can be matched. */
  lemma LiveLotsDecide(m: Method, lots: seq<Lot>, disps: seq<Disposal>)
    ensures EventsOfRun(m, lots, disps) == EventsOfRun(m, Live(lots, LOT_SIZE), disps)
  {
    DeadLotsDoNotMatter(m, lots, disps, 0);
    assert LiveFrom(lots, 0) == Live(lots, LOT_SIZE);
  }

  // ----- disposals of no positive size -----

  /** The same fills, each for the same disposal, found at another index. */
  ghost predicate Relabelled(fills: seq<Fill>, fills': seq<Fill>, disps: seq<Disposal>, disps': seq<Disposal>) {
    && |fills| == |fills'|
    && forall k :: 0 <= k < |fills| ==>
      && fills'[k] == fills[k].(disp := fills'[k].disp)
      && fills[k].disp < |disps| && fills'[k].disp < |disps'| && disps[fills[k].disp] == disps'[fills'[k].disp]
  }

  /** Which index a disposal has matters to its fills' labels alone. */
  lemma {:induction false} DrainRelabels(rem: seq<int>, order: seq<nat>, need: int, disp: nat, disp': nat)
    ensures var d, d' := Drain(rem, order, need, disp), Drain(rem, order, need, disp');
      && d.rem == d'.rem && d.left == d'.left && |d.fills| == |d'.fills|
      && forall k :: 0 <= k < |d.fills| ==> d.fills[k].disp == disp && d'.fills[k] == d.fills[k].(disp := disp')
    decreases |order|
  {
    if order != [] && need > 0 {
      var i := order[0];
      if i >= |rem| || rem[i] <= 0 {
        DrainRelabels(rem, order[1..], need, disp, disp');
      } else {
        var c := Min(rem[i], need);
        DrainRelabels(rem[i := rem[i] - c], order[1..], need - c, disp, disp');
      }
    }
  }

  lemma StepRelabels(m: Method, lots: seq<Lot>, s: State, s': State, disps: seq<Disposal>, disps': seq<Disposal>,
                     d: Disposal)
    requires |s.rem| == |lots| && s'.rem == s.rem && s'.unmatched == s.unmatched
    requires Relabelled(s.fills, s'.fills, disps, disps')
    ensures var r, r' := Step(m, lots, s, d, |disps|), Step(m, lots, s', d, |disps'|);
      r'.rem == r.rem && r'.unmatched == r.unmatched && Relabelled(r.fills, r'.fills, disps + [d], disps' + [d])
  {
    DrainRelabels(s.rem, Order(m, lots, s.rem, d.disposedAt), d.amountSat, |disps|, |disps'|);
  }

  lemma DeadStep(m: Method, lots: seq<Lot>, s: State, d: Disposal, disp: nat)
    requires |s.rem| == |lots| && d.amountSat <= 0
    ensures Step(m, lots, s, d, disp) == s
  {
    DrainNothing(s.rem, Order(m, lots, s.rem, d.disposedAt), d.amountSat, disp);
  }

  lemma RunSnoc(m: Method, lots: seq<Lot>, disps: seq<Disposal>, d: Disposal)
    ensures Run(m, lots, disps + [d]) == Step(m, lots, Run(m, lots, disps), d, |disps|)
  {
    assert (disps + [d])[..|disps|] == disps;
  }

  lemma {:induction false} LiveDisposalsRun(m: Method, lots: seq<Lot>, disps: seq<Disposal>)
    ensures var live := Live(disps, DISPOSAL_SIZE);
      var s, s' := Run(m, lots, disps), Run(m, lots, live);
      s'.rem == s.rem && s'.unmatched == s.unmatched && Relabelled(s.fills, s'.fills, disps, live)
  {
    if disps != [] {
      var before, d := disps[..|disps| - 1], disps[|disps| - 1];
      var live := Live(before, DISPOSAL_SIZE);
      var s := Run(m, lots, before);
      assert disps == before + [d];
      LiveDisposalsRun(m, lots, before);
      LiveSnoc(before, d, DISPOSAL_SIZE);
      RunSnoc(m, lots, before, d);
      if d.amountSat > 0 {
        StepRelabels(m, lots, s, Run(m, lots, live), before, live, d);
        RunSnoc(m, lots, live, d);
      } else {
        DeadStep(m, lots, s, d, |before|);
        assert live + [] == live;
      }
    }
  }

  /** The events are those of the disposals that need anything. */
  lemma LiveDisposalsDecide(m: Method, lots: seq<Lot>, disps: seq<Disposal>)
    ensures EventsOfRun(m, lots, disps) == EventsOfRun(m, lots, Live(disps, DISPOSAL_SIZE))
  {
    var live := Live(disps, DISPOSAL_SIZE);
    var e, e' := EventsOfRun(m, lots, disps), EventsOfRun(m, lots, live);
    LiveDisposalsRun(m, lots, disps);
    forall k | 0 <= k < |e|
      ensures e[k] == e'[k]
    {
      EventDates(m, lots, disps, k);
      EventDates(m, lots, live, k);
    }
  }

  /** Entries of no positive size leave no trace. */
  lemma LiveEntriesDecide(m: Method, lots: seq<Lot>, disps: seq<Disposal>)
    ensures EventsOfRun(m, lots, disps) == EventsOfRun(m, Live(lots, LOT_SIZE), Live(disps, DISPOSAL_SIZE))
  {
    LiveLotsDecide(m, lots, disps);
    LiveDisposalsDecide(m, Live(lots, LOT_SIZE), disps);
  }

  // ----- closed years -----

  lemma LiveLater<T(!new)>(sorted: seq<T>, s: seq<T>, later: seq<T>, size: T -> int, date: T -> int, t: int)
    requires IsSortOf(sorted, s + later, date) && forall x :: x in later ==> date(x) > t
    ensures IsSortOf(Live(sorted, size), Live(s, size) + Live(later, size), date)
    ensures forall x :: x in Live(later, size) ==> date(x) > t
  {
    LiveOfSorts(sorted, s + later, size, date);
    LiveConcat(s, later, size);
    forall x | x in Live(later, size)
      ensures date(x) > t
    {
      LiveIn(later, size, x);
    }
  }

  /**
    Closed years, with nothing asked of entries of no positive size: whatever is added after t, and
    however it is sorted, the events disposed of by t stay the same when no two entries of positive
    size dated by t share a date.
   */
  lemma ClosedYearsIgnoreDeadEntries(m: Method, t: int,
                                     lots: seq<Lot>, laterLots: seq<Lot>, sl: seq<Lot>, sl': seq<Lot>,
                                     disps: seq<Disposal>, laterDisps: seq<Disposal>,
                                     sd: seq<Disposal>, sd': seq<Disposal>)
    requires IsSortOf(sl, lots, LOT_DATE) && IsSortOf(sl', lots + laterLots, LOT_DATE)
    requires IsSortOf(sd, disps, DISPOSAL_DATE) && IsSortOf(sd', disps + laterDisps, DISPOSAL_DATE)
    requires DistinctUpTo(Live(lots, LOT_SIZE), LOT_DATE, t)
    requires DistinctUpTo(Live(disps, DISPOSAL_SIZE), DISPOSAL_DATE, t)
    requires forall l :: l in laterLots ==> LOT_DATE(l) > t
    requires forall d :: d in laterDisps ==> DISPOSAL_DATE(d) > t
    ensures UpTo(EventsOfRun(m, sl, sd), t) == UpTo(EventsOfRun(m, sl', sd'), t)
  {
    LiveOfSorts(sl, lots, LOT_SIZE, LOT_DATE);
    LiveOfSorts(sd, disps, DISPOSAL_SIZE, DISPOSAL_DATE);
    LiveLater(sl', lots, laterLots, LOT_SIZE, LOT_DATE, t);
    LiveLater(sd', disps, laterDisps, DISPOSAL_SIZE, DISPOSAL_DATE, t);
    LiveEntriesDecide(m, sl, sd);
    LiveEntriesDecide(m, sl', sd');
    ClosedYearsNeverChange(m, t, Live(lots, LOT_SIZE), Live(laterLots, LOT_SIZE),
                           Live(sl, LOT_SIZE), Live(sl', LOT_SIZE),
                           Live(disps, DISPOSAL_SIZE), Live(laterDisps, DISPOSAL_SIZE),
                           Live(sd, DISPOSAL_SIZE), Live(sd', DISPOSAL_SIZE));
  }
}
