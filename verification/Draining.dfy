/**
  What one disposal does to the open lots. Over date-sorted lots the candidates of a
  disposal are the open lots of a prefix, so FIFO drains that prefix from the left
  and LIFO drains it from the right.
 */
module Draining {
  import opened Sums
  import opened CostBasis

  /** Satoshis still open in the k oldest lots. */
  function Held(rem: seq<int>, k: nat): nat
    requires k <= |rem|
  {
    if k == 0 then 0 else Held(rem, k - 1) + Pos(rem[k - 1])
  }

  lemma {:induction false} HeldGrows(rem: seq<int>, lo: nat, hi: nat)
    requires lo <= hi <= |rem|
    ensures Held(rem, lo) <= Held(rem, hi)
    decreases hi
  {
    if lo < hi {
      HeldGrows(rem, lo, hi - 1);
    }
  }

  lemma {:induction false} HeldFrame(a: seq<int>, b: seq<int>, lo: nat, hi: nat)
    requires lo <= hi <= |a| == |b|
    requires a[lo..] == b[lo..]
    ensures Held(a, hi) - Held(a, lo) == Held(b, hi) - Held(b, lo)
    decreases hi
  {
    if lo < hi {
      HeldFrame(a, b, lo, hi - 1);
      assert a[hi - 1] == a[lo..][hi - 1 - lo] == b[lo..][hi - 1 - lo] == b[hi - 1];
    }
  }

  lemma {:induction false} HeldOfPrefix(a: seq<int>, b: seq<int>, k: nat)
    requires k <= |a| <= |b| && forall i :: 0 <= i < k ==> a[i] == b[i]
    ensures Held(a, k) == Held(b, k)
  {
    if k > 0 {
      HeldOfPrefix(a, b, k - 1);
    }
  }

  /** Taking `c` from lot `i` lowers every count that includes it by `c`. */
  lemma {:induction false} HeldUpdate(rem: seq<int>, i: nat, c: int, k: nat)
    requires i < |rem| && k <= |rem| && 0 <= c <= Pos(rem[i])
    ensures Held(rem[i := rem[i] - c], k) == Held(rem, k) - (if i < k then c else 0)
  {
    if k > 0 {
      HeldUpdate(rem, i, c, k - 1);
    }
  }

  // ----- candidates as a range -----

  function OpenUp(rem: seq<int>, lo: nat, hi: nat): (r: seq<nat>)
    requires lo <= hi <= |rem|
    decreases hi - lo
  {
    if lo == hi then []
    else
      var rest := OpenUp(rem, lo + 1, hi);
      if rem[lo] > 0 then [lo] + rest else rest
  }

  function OpenDown(rem: seq<int>, hi: nat): (r: seq<nat>)
    requires hi <= |rem|
  {
    if hi == 0 then []
    else
      var rest := OpenDown(rem, hi - 1);
      if rem[hi - 1] > 0 then [hi - 1] + rest else rest
  }

  /** How many lots are dated on or before `at`. */
  function Eligible(lots: seq<Lot>, at: int): (n: nat)
    ensures n <= |lots|
  {
    if lots == [] then 0
    else
      var n := |lots| - 1;
      if lots[n].acquiredAt <= at then n + 1 else Eligible(lots[..n], at)
  }

  /** The eligible lots are exactly a prefix of the sorted lots. */
  lemma {:induction false} EligibleIsPrefix(lots: seq<Lot>, at: int)
    requires SortedOn(lots, LOT_DATE)
    ensures forall i :: 0 <= i < |lots| ==> (lots[i].acquiredAt <= at <==> i < Eligible(lots, at))
  {
    if lots != [] {
      var n := |lots| - 1;
      assert LOT_DATE(lots[n]) == lots[n].acquiredAt;
      if lots[n].acquiredAt <= at {
        forall i | 0 <= i < n
          ensures lots[i].acquiredAt <= at
        {
          assert LOT_DATE(lots[i]) <= LOT_DATE(lots[n]);
        }
      } else {
        EligibleIsPrefix(lots[..n], at);
      }
    }
  }

  lemma EligibleMonotone(lots: seq<Lot>, at: int, at': int)
    requires SortedOn(lots, LOT_DATE) && at <= at'
    ensures Eligible(lots, at) <= Eligible(lots, at')
  {
    EligibleIsPrefix(lots, at);
    EligibleIsPrefix(lots, at');
    var p, p' := Eligible(lots, at), Eligible(lots, at');
    assert p > 0 ==> lots[p - 1].acquiredAt <= at';
  }

  lemma {:induction false} CandidatesAreOpenPrefix(lots: seq<Lot>, rem: seq<int>, at: int, i: nat)
    requires SortedOn(lots, LOT_DATE) && |rem| == |lots| && i <= |lots|
    ensures CandidatesFrom(lots, rem, at, i)
         == if i <= Eligible(lots, at) then OpenUp(rem, i, Eligible(lots, at)) else []
    decreases |lots| - i
  {
    EligibleIsPrefix(lots, at);
    if i < |lots| {
      CandidatesAreOpenPrefix(lots, rem, at, i + 1);
    }
  }

  lemma ReverseConcat<T>(s: seq<T>, t: seq<T>)
    requires |t| <= 1
    ensures Reverse(s + t) == t + Reverse(s)
  {
  }

  lemma {:induction false} OpenUpSnoc(rem: seq<int>, lo: nat, hi: nat)
    requires lo < hi <= |rem|
    ensures OpenUp(rem, lo, hi) == OpenUp(rem, lo, hi - 1) + (if rem[hi - 1] > 0 then [hi - 1] else [])
    decreases hi - lo
  {
    if lo < hi - 1 {
      OpenUpSnoc(rem, lo + 1, hi);
    } else {
      assert OpenUp(rem, hi, hi) == [];
    }
  }

  lemma {:induction false} ReversedCandidates(rem: seq<int>, hi: nat)
    requires hi <= |rem|
    ensures Reverse(OpenUp(rem, 0, hi)) == OpenDown(rem, hi)
  {
    if hi > 0 {
      var last: seq<nat> := if rem[hi - 1] > 0 then [hi - 1] else [];
      calc {
        Reverse(OpenUp(rem, 0, hi));
        { OpenUpSnoc(rem, 0, hi); }
        Reverse(OpenUp(rem, 0, hi - 1) + last);
        { ReverseConcat(OpenUp(rem, 0, hi - 1), last); }
        last + Reverse(OpenUp(rem, 0, hi - 1));
        { ReversedCandidates(rem, hi - 1); }
        last + OpenDown(rem, hi - 1);
      }
    }
  }

  /** The order in which a disposal visits lots, as a walk over the eligible prefix. */
  lemma OrderIsWalk(m: Method, lots: seq<Lot>, rem: seq<int>, at: int)
    requires SortedOn(lots, LOT_DATE) && |rem| == |lots|
    ensures Order(m, lots, rem, at)
         == if m.Lifo? then OpenDown(rem, Eligible(lots, at)) else OpenUp(rem, 0, Eligible(lots, at))
  {
    CandidatesAreOpenPrefix(lots, rem, at, 0);
    ReversedCandidates(rem, Eligible(lots, at));
  }

  // ----- what a drain takes -----

  function TakenBelow(fills: seq<Fill>, k: nat): int {
    if fills == [] then 0
    else (if fills[0].lot < k then fills[0].sats else 0) + TakenBelow(fills[1..], k)
  }

  lemma {:induction false} TakenBelowConcat(a: seq<Fill>, b: seq<Fill>, k: nat)
    ensures TakenBelow(a + b, k) == TakenBelow(a, k) + TakenBelow(b, k)
  {
    if a == [] {
      assert a + b == b;
    } else {
      assert (a + b)[1..] == a[1..] + b;
      TakenBelowConcat(a[1..], b, k);
    }
  }

  /** Whatever the order, what the events take is what the lots lose; no lot is overdrawn. */
  lemma {:induction false} DrainConserves(rem: seq<int>, order: seq<nat>, need: int, disp: nat, k: nat)
    requires k <= |rem|
    ensures var d := Drain(rem, order, need, disp);
      && TakenBelow(d.fills, k) == Held(rem, k) - Held(d.rem, k)
      && forall i :: 0 <= i < |rem| ==> Min(0, rem[i]) <= d.rem[i] <= rem[i]
    decreases |order|
  {
    if order != [] && need > 0 {
      var i := order[0];
      if i >= |rem| || rem[i] <= 0 {
        DrainConserves(rem, order[1..], need, disp, k);
      } else {
        var c := Min(rem[i], need);
        var rem' := rem[i := rem[i] - c];
        HeldUpdate(rem, i, c, k);
        DrainConserves(rem', order[1..], need - c, disp, k);
        assert (forall q :: 0 <= q < |rem| ==> Min(0, rem'[q]) == Min(0, rem[q]));
        var rest := Drain(rem', order[1..], need - c, disp).fills;
        assert ([Fill(i, disp, c)] + rest)[1..] == rest;
      }
    }
  }

  lemma {:induction false} OpenUpFrame(a: seq<int>, b: seq<int>, lo: nat, hi: nat)
    requires lo <= hi <= |a| && |a| == |b|
    requires forall i :: lo <= i < hi ==> a[i] == b[i]
    ensures OpenUp(a, lo, hi) == OpenUp(b, lo, hi)
    decreases hi - lo
  {
    if lo < hi {
      OpenUpFrame(a, b, lo + 1, hi);
    }
  }

  lemma {:induction false} OpenDownFrame(a: seq<int>, b: seq<int>, hi: nat)
    requires hi <= |a| && |a| == |b|
    requires forall i :: 0 <= i < hi ==> a[i] == b[i]
    ensures OpenDown(a, hi) == OpenDown(b, hi)
  {
    if hi > 0 {
      OpenDownFrame(a, b, hi - 1);
    }
  }

  // ----- the two walks, without their events -----

  datatype Walked = Walked(rem: seq<int>, left: int)

  function WalkUp(rem: seq<int>, lo: nat, hi: nat, need: int): (w: Walked)
    requires lo <= hi <= |rem|
    ensures |w.rem| == |rem|
    decreases hi - lo
  {
    if lo == hi || need <= 0 then Walked(rem, need)
    else
      var c := Min(Pos(rem[lo]), need);
      WalkUp(rem[lo := rem[lo] - c], lo + 1, hi, need - c)
  }

  function WalkDown(rem: seq<int>, hi: nat, need: int): (w: Walked)
    requires hi <= |rem|
    ensures |w.rem| == |rem|
    decreases hi
  {
    if hi == 0 || need <= 0 then Walked(rem, need)
    else
      var c := Min(Pos(rem[hi - 1]), need);
      WalkDown(rem[hi - 1 := rem[hi - 1] - c], hi - 1, need - c)
  }

  lemma DrainHead(rem: seq<int>, i: nat, tail: seq<nat>, need: int, disp: nat)
    requires i < |rem| && need > 0 && rem[i] > 0
    ensures var c := Min(rem[i], need);
      Drain(rem, [i] + tail, need, disp)
      == Drain(rem[i := rem[i] - c], tail, need - c, disp).After([Fill(i, disp, c)])
  {
    assert ([i] + tail)[1..] == tail;
  }

  lemma DrainUpHead(rem: seq<int>, lo: nat, hi: nat, need: int, disp: nat, c: int, rem': seq<int>)
    requires lo < hi <= |rem| && need > 0 && rem[lo] > 0
    requires c == Min(rem[lo], need) && rem' == rem[lo := rem[lo] - c]
    ensures Drain(rem, OpenUp(rem, lo, hi), need, disp)
         == Drain(rem', OpenUp(rem', lo + 1, hi), need - c, disp).After([Fill(lo, disp, c)])
  {
    OpenUpFrame(rem, rem', lo + 1, hi);
    DrainHead(rem, lo, OpenUp(rem', lo + 1, hi), need, disp);
  }

  /** The drain leaves what the walk leaves. */
  predicate SameWalk(d: Drained, w: Walked) {
    d.rem == w.rem && d.left == w.left
  }

  lemma UpSkipsEmpty(rem: seq<int>, lo: nat, hi: nat, need: int)
    requires lo < hi <= |rem| && rem[lo] <= 0 && need > 0
    ensures OpenUp(rem, lo, hi) == OpenUp(rem, lo + 1, hi) && WalkUp(rem, lo, hi, need) == WalkUp(rem, lo + 1, hi, need)
  {
    assert rem[lo := rem[lo] - 0] == rem;
  }

  lemma UpTakes(rem: seq<int>, lo: nat, hi: nat, need: int, disp: nat, c: int, rem': seq<int>)
    requires lo < hi <= |rem| && need > 0 && rem[lo] > 0
    requires c == Min(rem[lo], need) && rem' == rem[lo := rem[lo] - c]
    requires SameWalk(Drain(rem', OpenUp(rem', lo + 1, hi), need - c, disp), WalkUp(rem', lo + 1, hi, need - c))
    ensures SameWalk(Drain(rem, OpenUp(rem, lo, hi), need, disp), WalkUp(rem, lo, hi, need))
  {
    DrainUpHead(rem, lo, hi, need, disp, c, rem');
  }

  lemma {:induction false} DrainWalksUp(rem: seq<int>, lo: nat, hi: nat, need: int, disp: nat)
    requires lo <= hi <= |rem|
    ensures SameWalk(Drain(rem, OpenUp(rem, lo, hi), need, disp), WalkUp(rem, lo, hi, need))
    decreases hi - lo
  {
    if lo < hi && need > 0 {
      if rem[lo] <= 0 {
        UpSkipsEmpty(rem, lo, hi, need);
        DrainWalksUp(rem, lo + 1, hi, need, disp);
      } else {
        var c := Min(rem[lo], need);
        var rem' := rem[lo := rem[lo] - c];
        DrainWalksUp(rem', lo + 1, hi, need - c, disp);
        UpTakes(rem, lo, hi, need, disp, c, rem');
      }
    }
  }

  lemma DrainDownHead(rem: seq<int>, last: nat, need: int, disp: nat, c: int, rem': seq<int>)
    requires last < |rem| && need > 0 && rem[last] > 0
    requires c == Min(rem[last], need) && rem' == rem[last := rem[last] - c]
    ensures Drain(rem, OpenDown(rem, last + 1), need, disp)
         == Drain(rem', OpenDown(rem', last), need - c, disp).After([Fill(last, disp, c)])
  {
    OpenDownFrame(rem, rem', last);
    DrainHead(rem, last, OpenDown(rem', last), need, disp);
  }

  lemma {:induction false} DrainWalksDown(rem: seq<int>, hi: nat, need: int, disp: nat)
    requires hi <= |rem|
    ensures var d := Drain(rem, OpenDown(rem, hi), need, disp);
      WalkDown(rem, hi, need) == Walked(d.rem, d.left)
    decreases hi
  {
    if hi > 0 && need > 0 {
      var last := hi - 1;
      if rem[last] <= 0 {
        assert rem[last := rem[last]] == rem;
        DrainWalksDown(rem, last, need, disp);
      } else {
        var c := Min(rem[last], need);
        var rem' := rem[last := rem[last] - c];
        DrainWalksDown(rem', last, need - c, disp);
        DrainDownHead(rem, last, need, disp, c, rem');
      }
    }
  }

  lemma {:induction false} WalkUpFrame(rem: seq<int>, lo: nat, hi: nat, need: int)
    requires lo <= hi <= |rem|
    ensures WalkUp(rem, lo, hi, need).rem[hi..] == rem[hi..]
    ensures Held(WalkUp(rem, lo, hi, need).rem, lo) == Held(rem, lo)
    decreases hi - lo
  {
    if lo < hi && need > 0 {
      var c := Min(Pos(rem[lo]), need);
      var rem' := rem[lo := rem[lo] - c];
      HeldUpdate(rem, lo, c, lo + 1);
      HeldUpdate(rem, lo, c, lo);
      WalkUpFrame(rem', lo + 1, hi, need - c);
      WalkUpKeepsEarlier(rem', lo + 1, hi, need - c, lo);
    }
  }

  lemma {:induction false} WalkUpKeepsEarlier(rem: seq<int>, lo: nat, hi: nat, need: int, k: nat)
    requires k <= lo <= hi <= |rem|
    ensures Held(WalkUp(rem, lo, hi, need).rem, k) == Held(rem, k)
    decreases hi - lo
  {
    if lo < hi && need > 0 {
      var c := Min(Pos(rem[lo]), need);
      HeldUpdate(rem, lo, c, k);
      WalkUpKeepsEarlier(rem[lo := rem[lo] - c], lo + 1, hi, need - c, k);
    }
  }

  /** Taking c = min(r, need) of one lot and the rest of `need` from `others` takes `need` from both. */
  lemma TakeBoth(r: nat, others: nat, need: nat)
    ensures Pos(others - (need - Min(r, need))) + (r - Min(r, need)) == Pos(others + r - need)
    ensures Pos((need - Min(r, need)) - others) == Pos(need - (others + r))
  {
  }

  /** FIFO empties every initial range of the eligible lots before it touches a later lot. */
  lemma {:induction false} WalkUpTakesOldest(rem: seq<int>, lo: nat, hi: nat, need: int, k: nat)
    requires lo <= k <= hi <= |rem|
    ensures Held(WalkUp(rem, lo, hi, need).rem, k) - Held(rem, lo) == Pos(Held(rem, k) - Held(rem, lo) - Pos(need))
    decreases hi - lo
  {
    if lo < k && need > 0 {
      var r := Pos(rem[lo]);
      var c := Min(r, need);
      var rem' := rem[lo := rem[lo] - c];
      HeldUpdate(rem, lo, c, lo + 1);
      HeldUpdate(rem, lo, c, k);
      HeldGrows(rem, lo + 1, k);
      WalkUpTakesOldest(rem', lo + 1, hi, need - c, k);
      TakeBoth(r, Held(rem, k) - Held(rem, lo + 1), need);
      assert WalkUp(rem, lo, hi, need).rem == WalkUp(rem', lo + 1, hi, need - c).rem;
    } else {
      HeldGrows(rem, lo, k);
      WalkUpKeepsEarlier(rem, lo, hi, need, lo);
    }
  }

  lemma {:induction false} WalkUpLeaves(rem: seq<int>, lo: nat, hi: nat, need: int)
    requires lo <= hi <= |rem|
    ensures Pos(WalkUp(rem, lo, hi, need).left) == Pos(Pos(need) - (Held(rem, hi) - Held(rem, lo)))
    decreases hi - lo
  {
    HeldGrows(rem, lo, hi);
    if lo < hi && need > 0 {
      var c := Min(Pos(rem[lo]), need);
      HeldUpdate(rem, lo, c, lo + 1);
      HeldUpdate(rem, lo, c, hi);
      HeldGrows(rem, lo + 1, hi);
      WalkUpLeaves(rem[lo := rem[lo] - c], lo + 1, hi, need - c);
      TakeBoth(Pos(rem[lo]), Held(rem, hi) - Held(rem, lo + 1), need);
    }
  }

  lemma {:induction false} WalkDownFrame(rem: seq<int>, hi: nat, need: int)
    requires hi <= |rem|
    ensures WalkDown(rem, hi, need).rem[hi..] == rem[hi..]
    decreases hi
  {
    if hi > 0 && need > 0 {
      var c := Min(Pos(rem[hi - 1]), need);
      var rem' := rem[hi - 1 := rem[hi - 1] - c];
      WalkDownFrame(rem', hi - 1, need - c);
      assert WalkDown(rem', hi - 1, need - c).rem[hi..] == rem'[hi - 1..][1..];
    }
  }

  lemma HeldTop(a: seq<int>, b: seq<int>, i: nat)
    requires i < |a| == |b| && a[i..] == b[i..]
    ensures Held(b, i + 1) == Held(b, i) + Pos(a[i])
  {
    assert a[i] == a[i..][0] == b[i..][0] == b[i];
  }

  /** LIFO empties every final range of the eligible lots before it touches an earlier lot. */
  lemma {:induction false} WalkDownTakesNewest(rem: seq<int>, hi: nat, need: int, k: nat)
    requires k <= hi <= |rem|
    ensures var after := WalkDown(rem, hi, need).rem;
      Held(after, hi) - Held(after, k) == Pos(Held(rem, hi) - Held(rem, k) - Pos(need))
    decreases hi
  {
    if k < hi && need > 0 {
      var i := hi - 1;
      var r := Pos(rem[i]);
      var c := Min(r, need);
      var rem' := rem[i := rem[i] - c];
      var after := WalkDown(rem', i, need - c).rem;
      HeldUpdate(rem, i, c, i);
      HeldUpdate(rem, i, c, k);
      HeldGrows(rem, k, i);
      WalkDownTakesNewest(rem', i, need - c, k);
      HeldTop(rem', after, i) by {
        WalkDownFrame(rem', i, need - c);
      }
      TakeBoth(r, Held(rem, i) - Held(rem, k), need);
      assert WalkDown(rem, hi, need).rem == after;
      assert Held(after, hi) == Held(after, i) + (r - c);
      assert Held(rem, hi) == Held(rem, i) + r;
    } else {
      HeldGrows(rem, k, hi);
    }
  }

  lemma {:induction false} WalkDownLeaves(rem: seq<int>, hi: nat, need: int)
    requires hi <= |rem|
    ensures Pos(WalkDown(rem, hi, need).left) == Pos(Pos(need) - Held(rem, hi))
    decreases hi
  {
    if hi > 0 && need > 0 {
      var i := hi - 1;
      var c := Min(Pos(rem[i]), need);
      HeldUpdate(rem, i, c, i);
      WalkDownLeaves(rem[i := rem[i] - c], i, need - c);
      TakeBoth(Pos(rem[i]), Held(rem, i), need);
    }
  }

  // ----- where a drain ends -----

  lemma DrainNothing(rem: seq<int>, order: seq<nat>, need: int, disp: nat)
    requires need <= 0
    ensures Drain(rem, order, need, disp) == Drained(rem, [], need)
  {
  }

  predicate EndsWith(fills: seq<Fill>, f: Fill) {
    fills != [] && fills[|fills| - 1] == f
  }

  /** What lots lo..i-1 hold is what lot lo holds and, once that is gone, the others still do. */
  lemma HeldPastFirst(rem: seq<int>, rem': seq<int>, lo: nat, i: nat)
    requires lo < i <= |rem| && rem' == rem[lo := rem[lo] - Pos(rem[lo])]
    ensures Held(rem, i) - Held(rem, lo) == Pos(rem[lo]) + (Held(rem', i) - Held(rem', lo + 1))
    ensures Held(rem', i) >= Held(rem', lo + 1)
  {
    HeldFrame(rem, rem', lo + 1, i);
    HeldGrows(rem', lo + 1, i);
  }

  lemma HeldPastLast(rem: seq<int>, rem': seq<int>, lo: nat, last: nat)
    requires lo <= last < |rem| && rem' == rem[last := rem[last] - Pos(rem[last])]
    ensures Held(rem, last + 1) - Held(rem, lo) == Pos(rem[last]) + (Held(rem', last) - Held(rem', lo))
    ensures Held(rem', last) >= Held(rem', lo)
  {
    HeldUpdate(rem, last, Pos(rem[last]), last);
    HeldUpdate(rem, last, Pos(rem[last]), lo);
    HeldGrows(rem', lo, last);
  }

  /** One whole lot, and what ends the rest ends both. */
  lemma DrainUpEnds(rem: seq<int>, rem': seq<int>, lo: nat, hi: nat, need: int, disp: nat, f: Fill)
    requires lo < hi <= |rem| && need > Pos(rem[lo]) && rem' == rem[lo := rem[lo] - Pos(rem[lo])]
    requires EndsWith(Drain(rem', OpenUp(rem', lo + 1, hi), need - Pos(rem[lo]), disp).fills, f)
    ensures EndsWith(Drain(rem, OpenUp(rem, lo, hi), need, disp).fills, f)
  {
    if rem[lo] <= 0 {
      assert rem' == rem;
    } else {
      DrainUpHead(rem, lo, hi, need, disp, rem[lo], rem');
    }
  }

  lemma DrainDownEnds(rem: seq<int>, rem': seq<int>, last: nat, need: int, disp: nat, f: Fill)
    requires last < |rem| && need > Pos(rem[last]) && rem' == rem[last := rem[last] - Pos(rem[last])]
    requires EndsWith(Drain(rem', OpenDown(rem', last), need - Pos(rem[last]), disp).fills, f)
    ensures EndsWith(Drain(rem, OpenDown(rem, last + 1), need, disp).fills, f)
  {
    if rem[last] <= 0 {
      assert rem' == rem;
    } else {
      DrainDownHead(rem, last, need, disp, rem[last], rem');
    }
  }

  /** FIFO, asked for one satoshi more than the lots before i hold, ends with one satoshi of lot i. */
  lemma {:induction false} FifoStopsAt(rem: seq<int>, lo: nat, i: nat, hi: nat, need: int, disp: nat)
    requires lo <= i < hi <= |rem| && rem[i] > 0 && need == Held(rem, i) - Held(rem, lo) + 1
    ensures EndsWith(Drain(rem, OpenUp(rem, lo, hi), need, disp).fills, Fill(i, disp, 1))
    decreases i - lo
  {
    if lo == i {
      var rem' := rem[lo := rem[lo] - 1];
      DrainUpHead(rem, lo, hi, 1, disp, 1, rem');
      DrainNothing(rem', OpenUp(rem', lo + 1, hi), 0, disp);
    } else {
      var rem' := rem[lo := rem[lo] - Pos(rem[lo])];
      HeldPastFirst(rem, rem', lo, i);
      FifoStopsAt(rem', lo + 1, i, hi, need - Pos(rem[lo]), disp);
      DrainUpEnds(rem, rem', lo, hi, need, disp, Fill(i, disp, 1));
    }
  }

  /** LIFO, asked for one satoshi more than the lots after i hold, ends with one satoshi of lot i. */
  lemma {:induction false} LifoStopsAt(rem: seq<int>, i: nat, hi: nat, need: int, disp: nat)
    requires i < hi <= |rem| && rem[i] > 0 && need == Held(rem, hi) - Held(rem, i + 1) + 1
    ensures EndsWith(Drain(rem, OpenDown(rem, hi), need, disp).fills, Fill(i, disp, 1))
    decreases hi
  {
    var last := hi - 1;
    if last == i {
      var rem' := rem[last := rem[last] - 1];
      DrainDownHead(rem, last, 1, disp, 1, rem');
      DrainNothing(rem', OpenDown(rem', last), 0, disp);
    } else {
      var rem' := rem[last := rem[last] - Pos(rem[last])];
      HeldPastLast(rem, rem', i + 1, last);
      LifoStopsAt(rem', i, last, need - Pos(rem[last]), disp);
      DrainDownEnds(rem, rem', last, need, disp, Fill(i, disp, 1));
    }
  }
}
