/**
  Closed tax years never change: lots and disposals dated after T leave every event
  disposed of by T as it was, provided no two entries dated by T share a date (the sort
  is unstable, so equal dates may be taken in either order).
 */
module Causality {
  import opened Sums
  import opened CostBasis
  import opened CostBasisTheorems

  // ----- the part of a sorted sequence dated by T is unique -----

  ghost predicate DistinctUpTo<T>(s: seq<T>, date: T -> int, t: int) {
    && (forall x, y :: x in multiset(s) && y in multiset(s) && date(x) == date(y) <= t ==> x == y)
    && (forall x :: x in multiset(s) && date(x) <= t ==> multiset(s)[x] == 1)
  }

  ghost predicate SameUpTo<T(!new)>(s: seq<T>, s': seq<T>, date: T -> int, t: int) {
    forall x :: date(x) <= t ==> (x in s <==> x in s')
  }

  lemma StrictUpTo<T>(s: seq<T>, date: T -> int, t: int, i: nat, j: nat)
    requires DistinctUpTo(s, date, t)
    requires i < j < |s| && date(s[j]) <= t
    ensures date(s[i]) != date(s[j])
  {
    assert s[i] in multiset(s) && s[j] in multiset(s);
    if s[i] == s[j] {
      CountTwice(s, i, j);
    }
  }

  lemma {:induction false} PrefixUnique<T(!new)>(s: seq<T>, s': seq<T>, date: T -> int, t: int, k: nat)
    requires SortedOn(s, date) && SortedOn(s', date)
    requires DistinctUpTo(s, date, t) && DistinctUpTo(s', date, t) && SameUpTo(s, s', date, t)
    requires k < |s| && date(s[k]) <= t
    ensures k < |s'| && s'[k] == s[k]
  {
    assert s[k] in s';
    var q :| 0 <= q < |s'| && s'[q] == s[k];
    if q < k {
      PrefixUnique(s, s', date, t, q);
      StrictUpTo(s, date, t, q, k);
    }
    var y := s'[k];
    assert q > k ==> date(y) <= date(s'[q]);
    assert y in s;
    var r :| 0 <= r < |s| && s[r] == y;
    if r < k {
      PrefixUnique(s, s', date, t, r);
      StrictUpTo(s', date, t, r, k);
    } else if r > k {
      StrictUpTo(s, date, t, k, r);
    }
  }

  lemma SortKeepsDistinct<T>(s: seq<T>, input: seq<T>, date: T -> int, t: int)
    requires multiset(s) == multiset(input) && DistinctUpTo(input, date, t)
    ensures DistinctUpTo(s, date, t)
  {
  }

  /** Entries dated after t leave the entries dated by t as they were. */
  lemma LaterEntriesKeepDistinct<T(!new)>(s: seq<T>, later: seq<T>, date: T -> int, t: int)
    requires DistinctUpTo(s, date, t) && forall x :: x in later ==> date(x) > t
    ensures DistinctUpTo(s + later, date, t) && SameUpTo(s, s + later, date, t)
  {
    forall x | x in multiset(s + later) && date(x) <= t
      ensures x in multiset(s) && multiset(s + later)[x] == multiset(s)[x]
    {
      assert multiset(s + later) == multiset(s) + multiset(later);
      assert x !in later;
    }
    assert forall x :: x in s + later <==> x in s || x in later;
  }

  // ----- a run looks only at the lots dated by its last disposal -----

  lemma {:induction false} DrainAgrees(rem: seq<int>, rem': seq<int>, order: seq<nat>, need: int, disp: nat, a: nat)
    requires a <= |rem| && a <= |rem'| && rem[..a] == rem'[..a] && InRange(order, a)
    ensures var d, d' := Drain(rem, order, need, disp), Drain(rem', order, need, disp);
      d.fills == d'.fills && d.left == d'.left && d.rem[..a] == d'.rem[..a]
    decreases |order|
  {
    if order != [] && need > 0 {
      var i := order[0];
      assert rem[i] == rem[..a][i] == rem'[..a][i] == rem'[i];
      if rem[i] <= 0 {
        DrainAgrees(rem, rem', order[1..], need, disp, a);
      } else {
        var c := Min(rem[i], need);
        assert rem[i := rem[i] - c][..a] == rem[..a][i := rem[i] - c];
        assert rem'[i := rem'[i] - c][..a] == rem'[..a][i := rem'[i] - c];
        DrainAgrees(rem[i := rem[i] - c], rem'[i := rem'[i] - c], order[1..], need - c, disp, a);
      }
    }
  }

  lemma {:induction false} CandidatesAgree(lots: seq<Lot>, lots': seq<Lot>, rem: seq<int>, rem': seq<int>, at: int,
                                           a: nat, i: nat)
    requires |rem| == |lots| && |rem'| == |lots'| && i <= a <= |lots| && a <= |lots'|
    requires lots[..a] == lots'[..a] && rem[..a] == rem'[..a]
    requires forall k :: a <= k < |lots| ==> lots[k].acquiredAt > at
    requires forall k :: a <= k < |lots'| ==> lots'[k].acquiredAt > at
    ensures CandidatesFrom(lots, rem, at, i) == CandidatesFrom(lots', rem', at, i)
    ensures InRange(CandidatesFrom(lots, rem, at, i), a)
    decreases a - i
  {
    if i < a {
      assert lots[i] == lots[..a][i] == lots'[..a][i] && rem[i] == rem[..a][i] == rem'[..a][i];
      CandidatesAgree(lots, lots', rem, rem', at, a, i + 1);
    } else {
      NoCandidates(lots, rem, at, i);
      NoCandidates(lots', rem', at, i);
    }
  }

  lemma {:induction false} NoCandidates(lots: seq<Lot>, rem: seq<int>, at: int, i: nat)
    requires |rem| == |lots| && i <= |lots| && forall k :: i <= k < |lots| ==> lots[k].acquiredAt > at
    ensures CandidatesFrom(lots, rem, at, i) == []
    decreases |lots| - i
  {
    if i < |lots| {
      NoCandidates(lots, rem, at, i + 1);
    }
  }

  /** Two lot lists that agree on their first `a` lots, all others being dated after `t`. */
  ghost predicate AgreeUpTo(lots: seq<Lot>, lots': seq<Lot>, t: int, a: nat) {
    && a <= |lots| && a <= |lots'| && lots[..a] == lots'[..a]
    && (forall k :: a <= k < |lots| ==> lots[k].acquiredAt > t)
    && (forall k :: a <= k < |lots'| ==> lots'[k].acquiredAt > t)
  }

  lemma StepAgrees(m: Method, lots: seq<Lot>, lots': seq<Lot>, s: State, s': State, d: Disposal, disp: nat, t: int,
                   a: nat)
    requires AgreeUpTo(lots, lots', t, a) && d.disposedAt <= t
    requires |s.rem| == |lots| && |s'.rem| == |lots'| && s.fills == s'.fills && s.rem[..a] == s'.rem[..a]
    ensures var r, r' := Step(m, lots, s, d, disp), Step(m, lots', s', d, disp);
      r.fills == r'.fills && r.rem[..a] == r'.rem[..a]
  {
    CandidatesAgree(lots, lots', s.rem, s'.rem, d.disposedAt, a, 0);
    var order := Order(m, lots, s.rem, d.disposedAt);
    assert order == Order(m, lots', s'.rem, d.disposedAt);
    assert InRange(order, a);
    DrainAgrees(s.rem, s'.rem, order, d.amountSat, disp, a);
  }

  lemma {:induction false} RunAgrees(m: Method, lots: seq<Lot>, lots': seq<Lot>, disps: seq<Disposal>, t: int, a: nat)
    requires AgreeUpTo(lots, lots', t, a)
    requires forall j :: 0 <= j < |disps| ==> disps[j].disposedAt <= t
    ensures Run(m, lots, disps).fills == Run(m, lots', disps).fills
    ensures Run(m, lots, disps).rem[..a] == Run(m, lots', disps).rem[..a]
  {
    if disps == [] {
      forall i | 0 <= i < a
        ensures Amounts(lots)[i] == Amounts(lots')[i]
      {
        assert lots[..a][i] == lots'[..a][i];
      }
    } else {
      var n := |disps| - 1;
      RunAgrees(m, lots, lots', disps[..n], t, a);
      StepAgrees(m, lots, lots', Run(m, lots, disps[..n]), Run(m, lots', disps[..n]), disps[n], n, t, a);
    }
  }

  // ----- the events disposed of by t -----

  function UpTo(events: seq<Event>, t: int): seq<Event> {
    if events == [] then []
    else if events[0].disposedAt <= t then [events[0]] + UpTo(events[1..], t)
    else UpTo(events[1..], t)
  }

  lemma {:induction false} UpToConcat(a: seq<Event>, b: seq<Event>, t: int)
    ensures UpTo(a + b, t) == UpTo(a, t) + UpTo(b, t)
  {
    if a == [] {
      assert a + b == b;
    } else {
      assert (a + b)[1..] == a[1..] + b;
      UpToConcat(a[1..], b, t);
    }
  }

  lemma {:induction false} UpToAll(events: seq<Event>, t: int)
    requires forall k :: 0 <= k < |events| ==> events[k].disposedAt <= t
    ensures UpTo(events, t) == events
  {
    if events != [] {
      UpToAll(events[1..], t);
    }
  }

  lemma {:induction false} UpToNone(events: seq<Event>, t: int)
    requires forall k :: 0 <= k < |events| ==> events[k].disposedAt > t
    ensures UpTo(events, t) == []
  {
    if events != [] {
      UpToNone(events[1..], t);
    }
  }

  /** Later disposals only append events. */
  lemma {:induction false} RunExtends(m: Method, lots: seq<Lot>, disps: seq<Disposal>, b: nat)
    requires b <= |disps|
    ensures var early, all := Run(m, lots, disps[..b]).fills, Run(m, lots, disps).fills;
      early <= all && forall k :: |early| <= k < |all| ==> all[k].disp >= b
  {
    if b == |disps| {
      assert disps[..b] == disps;
    } else {
      var n := |disps| - 1;
      var s := Run(m, lots, disps[..n]);
      RunExtends(m, lots, disps[..n], b);
      assert disps[..n][..b] == disps[..b];
      DrainFillsInRange(s.rem, Order(m, lots, s.rem, disps[n].disposedAt), disps[n].amountSat, n);
    }
  }

  function EventsOfRun(m: Method, lots: seq<Lot>, disps: seq<Disposal>): seq<Event> {
    RunFillsInRange(m, lots, disps);
    EventsOf(lots, disps, Run(m, lots, disps).fills)
  }

  lemma UpToCut(events: seq<Event>, n: nat, t: int)
    requires n <= |events|
    requires forall k :: 0 <= k < |events| ==> (events[k].disposedAt <= t <==> k < n)
    ensures UpTo(events, t) == events[..n]
  {
    assert events == events[..n] + events[n..];
    UpToConcat(events[..n], events[n..], t);
    UpToAll(events[..n], t);
    UpToNone(events[n..], t);
  }

  lemma EventDates(m: Method, lots: seq<Lot>, disps: seq<Disposal>, k: nat)
    requires k < |Run(m, lots, disps).fills|
    ensures var f := Run(m, lots, disps).fills[k];
      && f.disp < |disps| && f.lot < |lots|
      && EventsOfRun(m, lots, disps)[k] == EventOf(lots[f.lot], disps[f.disp], f.sats)
  {
    RunFillsInRange(m, lots, disps);
    assert Run(m, lots, disps).fills[k] in Run(m, lots, disps).fills;
  }

  /** The events disposed of by t are the events of the disposals dated by t, alone. */
  lemma EventsUpToAre(m: Method, lots: seq<Lot>, disps: seq<Disposal>, t: int, b: nat)
    requires b <= |disps|
    requires forall j :: 0 <= j < |disps| ==> (disps[j].disposedAt <= t <==> j < b)
    ensures UpTo(EventsOfRun(m, lots, disps), t) == EventsOfRun(m, lots, disps[..b])
  {
    var early, all := EventsOfRun(m, lots, disps[..b]), EventsOfRun(m, lots, disps);
    var fills, fills' := Run(m, lots, disps[..b]).fills, Run(m, lots, disps).fills;
    RunExtends(m, lots, disps, b);
    forall k | 0 <= k < |all|
      ensures all[k].disposedAt <= t <==> k < |early|
      ensures k < |early| ==> early[k] == all[k]
    {
      EventDates(m, lots, disps, k);
      if k < |early| {
        EventDates(m, lots, disps[..b], k);
        assert fills'[k] == fills[k];
      }
    }
    UpToCut(all, |early|, t);
  }

  lemma CutOfSorted<T>(s: seq<T>, date: T -> int, t: int) returns (b: nat)
    requires SortedOn(s, date)
    ensures b <= |s| && forall j :: 0 <= j < |s| ==> (date(s[j]) <= t <==> j < b)
  {
    b := |s|;
    while b > 0 && date(s[b - 1]) > t
      invariant b <= |s| && forall j :: b <= j < |s| ==> date(s[j]) > t
    {
      b := b - 1;
    }
    assert b > 0 ==> forall j :: 0 <= j < b ==> date(s[j]) <= date(s[b - 1]);
  }

  /** The entries dated by t, at the front of the sorted sequences, are the same. */
  lemma SamePrefix<T(!new)>(input: seq<T>, later: seq<T>, s: seq<T>, s': seq<T>, date: T -> int,
                     t: int) returns (b: nat)
    requires IsSortOf(s, input, date) && IsSortOf(s', input + later, date)
    requires DistinctUpTo(input, date, t) && forall x :: x in later ==> date(x) > t
    ensures b <= |s| && b <= |s'| && s[..b] == s'[..b]
    ensures forall j :: 0 <= j < |s| ==> (date(s[j]) <= t <==> j < b)
    ensures forall j :: 0 <= j < |s'| ==> (date(s'[j]) <= t <==> j < b)
  {
    LaterEntriesKeepDistinct(input, later, date, t);
    SortKeepsDistinct(s, input, date, t);
    SortKeepsDistinct(s', input + later, date, t);
    forall x | date(x) <= t
      ensures x in s <==> x in s'
    {
      assert x in s <==> x in multiset(s);
      assert x in s' <==> x in multiset(s');
      assert x in input <==> x in multiset(input);
      assert x in input + later <==> x in multiset(input + later);
    }
    b := CommonCut(s, s', date, t);
  }

  lemma CommonCut<T(!new)>(s: seq<T>, s': seq<T>, date: T -> int, t: int) returns (b: nat)
    requires SortedOn(s, date) && SortedOn(s', date)
    requires DistinctUpTo(s, date, t) && DistinctUpTo(s', date, t) && SameUpTo(s, s', date, t)
    ensures b <= |s| && b <= |s'| && s[..b] == s'[..b]
    ensures forall j :: 0 <= j < |s| ==> (date(s[j]) <= t <==> j < b)
    ensures forall j :: 0 <= j < |s'| ==> (date(s'[j]) <= t <==> j < b)
  {
    b := CutOfSorted(s, date, t);
    var b' := CutOfSorted(s', date, t);
    if b > 0 {
      PrefixUnique(s, s', date, t, b - 1);
    }
    if b' > 0 {
      PrefixUnique(s', s, date, t, b' - 1);
    }
    forall j | 0 <= j < b
      ensures s[j] == s'[j]
    {
      PrefixUnique(s, s', date, t, j);
    }
  }

  lemma SameLots(lots: seq<Lot>, later: seq<Lot>, sl: seq<Lot>, sl': seq<Lot>, t: int) returns (a: nat)
    requires IsSortOf(sl, lots, LOT_DATE) && IsSortOf(sl', lots + later, LOT_DATE)
    requires DistinctUpTo(lots, LOT_DATE, t) && forall l :: l in later ==> LOT_DATE(l) > t
    ensures AgreeUpTo(sl, sl', t, a)
  {
    a := SamePrefix(lots, later, sl, sl', LOT_DATE, t);
    assert forall j :: 0 <= j < |sl| ==> LOT_DATE(sl[j]) == sl[j].acquiredAt;
    assert forall j :: 0 <= j < |sl'| ==> LOT_DATE(sl'[j]) == sl'[j].acquiredAt;
  }

  lemma SameDisposals(disps: seq<Disposal>, later: seq<Disposal>, sd: seq<Disposal>, sd': seq<Disposal>, t: int)
    returns (b: nat)
    requires IsSortOf(sd, disps, DISPOSAL_DATE) && IsSortOf(sd', disps + later, DISPOSAL_DATE)
    requires DistinctUpTo(disps, DISPOSAL_DATE, t) && forall d :: d in later ==> DISPOSAL_DATE(d) > t
    ensures b <= |sd| && b <= |sd'| && sd[..b] == sd'[..b]
    ensures forall j :: 0 <= j < |sd[..b]| ==> sd[..b][j].disposedAt <= t
    ensures forall j :: 0 <= j < |sd| ==> (sd[j].disposedAt <= t <==> j < b)
    ensures forall j :: 0 <= j < |sd'| ==> (sd'[j].disposedAt <= t <==> j < b)
  {
    b := SamePrefix(disps, later, sd, sd', DISPOSAL_DATE, t);
    assert forall j :: 0 <= j < |sd| ==> DISPOSAL_DATE(sd[j]) == sd[j].disposedAt;
    assert forall j :: 0 <= j < |sd'| ==> DISPOSAL_DATE(sd'[j]) == sd'[j].disposedAt;
  }

  /** Whatever is added after t, and however it is sorted, the events disposed of by t stay the same. */
  lemma ClosedYearsNeverChange(m: Method, t: int,
                               lots: seq<Lot>, laterLots: seq<Lot>, sl: seq<Lot>, sl': seq<Lot>,
                               disps: seq<Disposal>, laterDisps: seq<Disposal>, sd: seq<Disposal>, sd': seq<Disposal>)
    requires IsSortOf(sl, lots, LOT_DATE) && IsSortOf(sl', lots + laterLots, LOT_DATE)
    requires IsSortOf(sd, disps, DISPOSAL_DATE) && IsSortOf(sd', disps + laterDisps, DISPOSAL_DATE)
    requires DistinctUpTo(lots, LOT_DATE, t) && DistinctUpTo(disps, DISPOSAL_DATE, t)
    requires forall l :: l in laterLots ==> LOT_DATE(l) > t
    requires forall d :: d in laterDisps ==> DISPOSAL_DATE(d) > t
    ensures UpTo(EventsOfRun(m, sl, sd), t) == UpTo(EventsOfRun(m, sl', sd'), t)
  {
    var a := SameLots(lots, laterLots, sl, sl', t);
    var b := SameDisposals(disps, laterDisps, sd, sd', t);
    EventsUpToAre(m, sl, sd, t, b);
    EventsUpToAre(m, sl', sd', t, b);
    SameEvents(m, sl, sl', sd[..b], t, a);
  }

  lemma SameEvents(m: Method, lots: seq<Lot>, lots': seq<Lot>, disps: seq<Disposal>, t: int, a: nat)
    requires AgreeUpTo(lots, lots', t, a)
    requires forall j :: 0 <= j < |disps| ==> disps[j].disposedAt <= t
    ensures EventsOfRun(m, lots, disps) == EventsOfRun(m, lots', disps)
  {
    RunAgrees(m, lots, lots', disps, t, a);
    RunFillsInRange(m, lots, disps);
    RunFillsInRange(m, lots', disps);
    FillsRespectDates(m, lots, disps);
    var fills := Run(m, lots, disps).fills;
    forall k | 0 <= k < |fills|
      ensures lots[fills[k].lot] == lots'[fills[k].lot]
    {
      assert fills[k] in fills;
      assert lots[..a][fills[k].lot] == lots'[..a][fills[k].lot];
    }
  }
}
