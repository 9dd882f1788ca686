/**
  The cost-basis matcher of internal/tax/costbasis.go.

  Times are integers (nanoseconds), satoshis are integers, dollars are reals.
  `Match` is the imperative program; `Run` is the function it is proved against,
  and the other tax modules prove what the design promises about `Run`.
 */
module CostBasis {
  import opened Sums

  datatype Method = Fifo | Lifo | Other(name: string)

  datatype Lot = Lot(
    id: int, acquiredAt: int, amountSat: int, priceUSD: real,
    source: string, externalID: string, remainSat: int)
  {
    function CostPerSat(): real {
      if amountSat == 0 then 0.0 else priceUSD / amountSat as real
    }
  }

  datatype Disposal = Disposal(
    disposedAt: int, amountSat: int, proceedsUSD: real,
    txType: string, source: string, externalID: string)
  {
    function ProceedsPerSat(): real {
      if amountSat > 0 then proceedsUSD / amountSat as real else 0.0
    }
  }

  datatype Event = Event(
    disposedAt: int, acquiredAt: int, amountSat: int,
    costBasisUSD: real, proceedsUSD: real, gainLossUSD: real, isLongTerm: bool,
    lotID: int, disposalSource: string, disposalExtID: string)

  datatype MatchResult = MatchResult(events: seq<Event>, unmatchedSat: int)

  datatype Outcome = Matched(result: MatchResult) | UnsupportedMethod(name: string)

  /** 365 days in nanoseconds. */
  const HOLDING_YEAR: int := 365 * 24 * 3600 * 1_000_000_000

  // ----- sorting -----

  const LOT_DATE: Lot -> int := (l: Lot) => l.acquiredAt
  const DISPOSAL_DATE: Disposal -> int := (d: Disposal) => d.disposedAt

  ghost predicate SortedOn<T>(s: seq<T>, date: T -> int) {
    forall i, j :: 0 <= i < j < |s| ==> date(s[i]) <= date(s[j])
  }

  /** All that an unstable sort promises: the same elements, in date order. */
  ghost predicate IsSortOf<T>(sorted: seq<T>, s: seq<T>, date: T -> int) {
    multiset(sorted) == multiset(s) && SortedOn(sorted, date)
  }

  /** Stands for sort.Slice: callers learn only that the result is some sorted permutation. */
  method SortOn<T>(s: seq<T>, date: T -> int) returns (sorted: seq<T>)
    ensures IsSortOf(sorted, s, date)
  {
    sorted := [];
    for n := 0 to |s|
      invariant IsSortOf(sorted, s[..n], date)
    {
      assert s[..n + 1] == s[..n] + [s[n]];
      sorted := Insert(sorted, s[n], date);
    }
    assert s[..|s|] == s;
  }

  method Insert<T>(s: seq<T>, x: T, date: T -> int) returns (r: seq<T>)
    requires SortedOn(s, date)
    ensures IsSortOf(r, s + [x], date)
  {
    var k := |s|;
    while k > 0 && date(s[k - 1]) > date(x)
      invariant 0 <= k <= |s|
      invariant k < |s| ==> date(s[k]) > date(x)
    {
      k := k - 1;
    }
    r := s[..k] + [x] + s[k..];
    InsertionIsPermutation(s, k, x);
    InsertionIsSorted(s, k, x, date);
  }

  lemma InsertionIsPermutation<T>(s: seq<T>, k: nat, x: T)
    requires k <= |s|
    ensures multiset(s[..k] + [x] + s[k..]) == multiset(s + [x])
  {
    assert s == s[..k] + s[k..];
  }

  lemma InsertionIsSorted<T>(s: seq<T>, k: nat, x: T, date: T -> int)
    requires SortedOn(s, date) && k <= |s|
    requires k > 0 ==> date(s[k - 1]) <= date(x)
    requires k < |s| ==> date(s[k]) > date(x)
    ensures SortedOn(s[..k] + [x] + s[k..], date)
  {
    // Positions before k keep their neighbours; positions after k shift by one.
  }

  // ----- specification of one disposal -----

  /** `sats` satoshis of the lot at index `lot` were matched to the disposal at index `disp`. */
  datatype Fill = Fill(lot: nat, disp: nat, sats: int)

  datatype Drained = Drained(rem: seq<int>, fills: seq<Fill>, left: int)
  {
    function After(earlier: seq<Fill>): Drained {
      Drained(rem, earlier + fills, left)
    }
  }

  /** Indices from `i` on of the lots open for a disposal at time `at`, oldest first. */
  function CandidatesFrom(lots: seq<Lot>, rem: seq<int>, at: int, i: nat): (r: seq<nat>)
    requires |rem| == |lots| && i <= |lots|
    decreases |lots| - i
  {
    if i == |lots| then []
    else
      var rest := CandidatesFrom(lots, rem, at, i + 1);
      if lots[i].acquiredAt <= at && rem[i] > 0 then [i] + rest else rest
  }

  function Reverse<T>(s: seq<T>): (r: seq<T>)
    ensures |r| == |s|
    ensures forall i :: 0 <= i < |s| ==> r[i] == s[|s| - 1 - i]
  {
    if s == [] then [] else Reverse(s[1..]) + [s[0]]
  }

  function Order(m: Method, lots: seq<Lot>, rem: seq<int>, at: int): (r: seq<nat>)
    requires |rem| == |lots|
  {
    var up := CandidatesFrom(lots, rem, at, 0);
    if m.Lifo? then Reverse(up) else up
  }

  /** Takes up to `need` satoshis from the lots in the given order. */
  function Drain(rem: seq<int>, order: seq<nat>, need: int, disp: nat): (d: Drained)
    ensures |d.rem| == |rem|
    decreases |order|
  {
    if order == [] || need <= 0 then Drained(rem, [], need)
    else
      var i := order[0];
      if i >= |rem| || rem[i] <= 0 then Drain(rem, order[1..], need, disp)
      else
        var c := Min(rem[i], need);
        var d := Drain(rem[i := rem[i] - c], order[1..], need - c, disp);
        d.After([Fill(i, disp, c)])
  }

  // ----- specification of a whole run -----

  datatype State = State(rem: seq<int>, fills: seq<Fill>, unmatched: int)

  function Amounts(lots: seq<Lot>): (a: seq<int>)
    ensures |a| == |lots|
    ensures forall i :: 0 <= i < |lots| ==> a[i] == lots[i].amountSat
  {
    seq(|lots|, i requires 0 <= i < |lots| => lots[i].amountSat)
  }

  function Step(m: Method, lots: seq<Lot>, s: State, d: Disposal, disp: nat): (s': State)
    requires |s.rem| == |lots|
    ensures |s'.rem| == |lots|
  {
    var r := Drain(s.rem, Order(m, lots, s.rem, d.disposedAt), d.amountSat, disp);
    State(r.rem, s.fills + r.fills, s.unmatched + Pos(r.left))
  }

  /** The state after all of `disps`, in order, over date-sorted `lots`. */
  function Run(m: Method, lots: seq<Lot>, disps: seq<Disposal>): (s: State)
    ensures |s.rem| == |lots|
  {
    if disps == [] then State(Amounts(lots), [], 0)
    else
      var n := |disps| - 1;
      Step(m, lots, Run(m, lots, disps[..n]), disps[n], n)
  }

  function EventOf(l: Lot, d: Disposal, sats: int): Event {
    var basis := l.CostPerSat() * sats as real;
    var proceeds := d.ProceedsPerSat() * sats as real;
    Event(d.disposedAt, l.acquiredAt, sats, basis, proceeds, proceeds - basis,
          d.disposedAt - l.acquiredAt > HOLDING_YEAR, l.id, d.source, d.externalID)
  }

  ghost predicate FillsInRange(fills: seq<Fill>, lots: nat, disps: nat) {
    forall f :: f in fills ==> f.lot < lots && f.disp < disps
  }

  function EventsOf(lots: seq<Lot>, disps: seq<Disposal>, fills: seq<Fill>): (e: seq<Event>)
    requires FillsInRange(fills, |lots|, |disps|)
    ensures |e| == |fills|
    ensures forall k :: 0 <= k < |fills| ==>
      e[k] == EventOf(lots[fills[k].lot], disps[fills[k].disp], fills[k].sats)
  {
    seq(|fills|, k requires 0 <= k < |fills| =>
      assert fills[k] in fills;
      EventOf(lots[fills[k].lot], disps[fills[k].disp], fills[k].sats))
  }

  // ----- facts the program needs -----

  lemma {:induction false} DrainFillsInRange(rem: seq<int>, order: seq<nat>, need: int, disp: nat)
    ensures forall f :: f in Drain(rem, order, need, disp).fills ==> f.lot < |rem| && f.disp == disp && f.sats > 0
    decreases |order|
  {
    if order != [] && need > 0 {
      var i := order[0];
      if i >= |rem| || rem[i] <= 0 {
        DrainFillsInRange(rem, order[1..], need, disp);
      } else {
        var c := Min(rem[i], need);
        DrainFillsInRange(rem[i := rem[i] - c], order[1..], need - c, disp);
      }
    }
  }

  /** Every event is positive and points at a lot and a disposal of the input. */
  lemma {:induction false} RunFillsInRange(m: Method, lots: seq<Lot>, disps: seq<Disposal>)
    ensures FillsInRange(Run(m, lots, disps).fills, |lots|, |disps|)
    ensures forall f :: f in Run(m, lots, disps).fills ==> f.sats > 0
  {
    if disps != [] {
      var n := |disps| - 1;
      RunFillsInRange(m, lots, disps[..n]);
      var s := Run(m, lots, disps[..n]);
      DrainFillsInRange(s.rem, Order(m, lots, s.rem, disps[n].disposedAt), disps[n].amountSat, n);
    }
  }

  // ----- the program -----

  /** `work` holds the lots of `lots`, with the remaining satoshis given by `rem`. */
  ghost predicate Carries(work: seq<Lot>, lots: seq<Lot>, rem: seq<int>) {
    && |work| == |lots| == |rem|
    && forall i :: 0 <= i < |lots| ==> work[i] == lots[i].(remainSat := rem[i])
  }

  method ReverseInPlace(s: seq<nat>) returns (r: seq<nat>)
    ensures r == Reverse(s)
  {
    r := s;
    var i, j := 0, |r| - 1;
    while i < j
      invariant |r| == |s| && j == |s| - 1 - i && 0 <= i <= |s|
      invariant forall k :: 0 <= k < i ==> r[k] == s[|s| - 1 - k]
      invariant forall k :: j < k < |s| ==> r[k] == s[|s| - 1 - k]
      invariant forall k :: i <= k <= j ==> r[k] == s[k]
    {
      r := r[i := r[j]][j := r[i]];
      i, j := i + 1, j - 1;
    }
  }

  ghost predicate InRange(order: seq<nat>, n: nat) {
    forall k :: 0 <= k < |order| ==> order[k] < n
  }

  lemma {:induction false} CandidatesInRange(lots: seq<Lot>, rem: seq<int>, at: int, i: nat)
    requires |rem| == |lots| && i <= |lots|
    ensures InRange(CandidatesFrom(lots, rem, at, i), |lots|)
    decreases |lots| - i
  {
    if i < |lots| {
      CandidatesInRange(lots, rem, at, i + 1);
    }
  }

  method CandidateLots(work: array<Lot>, ghost lots: seq<Lot>, ghost rem: seq<int>, disposedAt: int, m: Method)
    returns (indices: seq<nat>)
    requires Carries(work[..], lots, rem)
    ensures indices == Order(m, lots, rem, disposedAt) && InRange(indices, work.Length)
  {
    indices := [];
    ghost var all := CandidatesFrom(lots, rem, disposedAt, 0);
    for i := 0 to work.Length
      invariant indices + CandidatesFrom(lots, rem, disposedAt, i) == all
    {
      assert work[i] == lots[i].(remainSat := rem[i]);
      if !(work[i].acquiredAt > disposedAt) && work[i].remainSat > 0 {
        indices := indices + [i];
      }
    }
    CandidatesInRange(lots, rem, disposedAt, 0);
    if m == Lifo {
      indices := ReverseInPlace(indices);
    }
  }

  /** `events` are the events of `fills`, all for the disposal `d`. */
  ghost predicate EventsFollow(events: seq<Event>, fills: seq<Fill>, lots: seq<Lot>, d: Disposal) {
    && |events| == |fills|
    && forall k :: 0 <= k < |events| ==>
      fills[k].lot < |lots| && events[k] == EventOf(lots[fills[k].lot], d, fills[k].sats)
  }

  lemma EventsFollowSnoc(events: seq<Event>, fills: seq<Fill>, lots: seq<Lot>, d: Disposal, e: Event, f: Fill)
    requires EventsFollow(events, fills, lots, d)
    requires f.lot < |lots| && e == EventOf(lots[f.lot], d, f.sats)
    ensures EventsFollow(events + [e], fills + [f], lots, d)
  {
  }

  lemma DrainTakesHead(rem: seq<int>, order: seq<nat>, need: int, disp: nat, earlier: seq<Fill>)
    requires order != [] && order[0] < |rem| && need > 0 && rem[order[0]] > 0
    ensures var i := order[0];
      var c := Min(rem[i], need);
      Drain(rem, order, need, disp).After(earlier)
         == Drain(rem[i := rem[i] - c], order[1..], need - c, disp).After(earlier + [Fill(i, disp, c)])
  {
    var i := order[0];
    var c := Min(rem[i], need);
    var rest := Drain(rem[i := rem[i] - c], order[1..], need - c, disp).fills;
    assert earlier + ([Fill(i, disp, c)] + rest) == (earlier + [Fill(i, disp, c)]) + rest;
  }

  /** Taking `c` satoshis of one candidate in place, with its event. */
  method Consume(work: array<Lot>, ghost lots: seq<Lot>, ghost rem: seq<int>, idx: nat, c: int, d: Disposal,
                 proceedsPerSat: real)
    returns (event: Event)
    requires Carries(work[..], lots, rem) && idx < work.Length
    requires proceedsPerSat == d.ProceedsPerSat()
    modifies work
    ensures Carries(work[..], lots, rem[idx := rem[idx] - c])
    ensures event == EventOf(lots[idx], d, c)
  {
    var lot := work[idx];
    assert lot == lots[idx].(remainSat := rem[idx]);
    var costBasis := lot.CostPerSat() * c as real;
    var proceeds := proceedsPerSat * c as real;
    event := Event(
      d.disposedAt, lot.acquiredAt, c, costBasis, proceeds, proceeds - costBasis,
      d.disposedAt - lot.acquiredAt > HOLDING_YEAR, lot.id, d.source, d.externalID);
    work[idx] := lot.(remainSat := lot.remainSat - c);
  }

  /** One disposal drained in place: the body of the outer loop of Match. */
  method DrainInPlace(work: array<Lot>, ghost lots: seq<Lot>, ghost rem: seq<int>, m: Method, d: Disposal,
                      ghost disp: nat)
    returns (events: seq<Event>, remaining: int, ghost drained: Drained)
    requires Carries(work[..], lots, rem)
    modifies work
    ensures drained == Drain(rem, Order(m, lots, rem, d.disposedAt), d.amountSat, disp)
    ensures Carries(work[..], lots, drained.rem) && remaining == drained.left
    ensures EventsFollow(events, drained.fills, lots, d)
  {
    remaining := d.amountSat;
    var proceedsPerSat := d.ProceedsPerSat();
    var candidates := CandidateLots(work, lots, rem, d.disposedAt, m);
    events := [];
    drained := Drain(rem, candidates, d.amountSat, disp);
    ghost var r, fills := rem, [];
    var q := 0;
    while q < |candidates| && remaining > 0
      invariant 0 <= q <= |candidates|
      invariant Carries(work[..], lots, r)
      invariant drained == Drain(r, candidates[q..], remaining, disp).After(fills)
      invariant EventsFollow(events, fills, lots, d)
      decreases |candidates| - q
    {
      var idx := candidates[q];
      assert candidates[q..][1..] == candidates[q + 1..];
      assert work[idx].remainSat == r[idx];
      if work[idx].remainSat > 0 {
        var consumed := work[idx].remainSat;
        if consumed > remaining {
          consumed := remaining;
        }
        DrainTakesHead(r, candidates[q..], remaining, disp, fills);
        var event := Consume(work, lots, r, idx, consumed, d, proceedsPerSat);
        EventsFollowSnoc(events, fills, lots, d, event, Fill(idx, disp, consumed));
        events := events + [event];
        remaining := remaining - consumed;
        r := r[idx := r[idx] - consumed];
        fills := fills + [Fill(idx, disp, consumed)];
      }
      q := q + 1;
    }
  }

  lemma EventsOfExtend(lots: seq<Lot>, disps: seq<Disposal>, fills: seq<Fill>, more: seq<Fill>, n: nat, es: seq<Event>)
    requires FillsInRange(fills, |lots|, |disps|) && n < |disps|
    requires forall f :: f in more ==> f.lot < |lots| && f.disp == n
    requires EventsFollow(es, more, lots, disps[n])
    ensures FillsInRange(fills + more, |lots|, |disps|)
    ensures EventsOf(lots, disps, fills + more) == EventsOf(lots, disps, fills) + es
  {
    forall k | 0 <= k < |more|
      ensures es[k] == EventsOf(lots, disps, fills + more)[|fills| + k]
    {
      assert more[k] in more;
    }
  }

  method Match(lots: seq<Lot>, disposals: seq<Disposal>, m: Method)
    returns (r: Outcome, ghost sl: seq<Lot>, ghost sd: seq<Disposal>)
    ensures m.Other? <==> r.UnsupportedMethod?
    ensures IsSortOf(sl, lots, LOT_DATE) && IsSortOf(sd, disposals, DISPOSAL_DATE)
    ensures r.Matched? ==>
      var s := Run(m, sl, sd);
      && FillsInRange(s.fills, |sl|, |sd|)
      && r.result == MatchResult(EventsOf(sl, sd, s.fills), s.unmatched)
  {
    var sortedLots := SortOn(lots, LOT_DATE);
    var sortedDisposals := SortOn(disposals, DISPOSAL_DATE);
    sl, sd := sortedLots, sortedDisposals;
    if m.Other? {
      return UnsupportedMethod(m.name), sl, sd;
    }
    var work := new Lot[|sortedLots|](
      i requires 0 <= i < |sortedLots| => sortedLots[i].(remainSat := sortedLots[i].amountSat));
    var events: seq<Event> := [];
    var unmatched := 0;
    assert sd[..0] == [];
    assert Carries(work[..], sl, Amounts(sl));
    for n := 0 to |sortedDisposals|
      invariant fresh(work)
      invariant Carries(work[..], sl, Run(m, sl, sd[..n]).rem)
      invariant unmatched == Run(m, sl, sd[..n]).unmatched
      invariant FillsInRange(Run(m, sl, sd[..n]).fills, |sl|, |sd|)
      invariant events == EventsOf(sl, sd, Run(m, sl, sd[..n]).fills)
    {
      ghost var s := Run(m, sl, sd[..n]);
      assert sd[..n + 1][..n] == sd[..n];
      var es, left, drained := DrainInPlace(work, sl, s.rem, m, sortedDisposals[n], n);
      DrainFillsInRange(s.rem, Order(m, sl, s.rem, sd[n].disposedAt), sd[n].amountSat, n);
      EventsOfExtend(sl, sd, s.fills, drained.fills, n, es);
      assert Run(m, sl, sd[..n + 1]) == Step(m, sl, s, sd[n], n);
      events := events + es;
      if left > 0 {
        unmatched := unmatched + left;
      }
    }
    assert sd[..|sd|] == sd;
    r := Matched(MatchResult(events, unmatched));
  }
}
