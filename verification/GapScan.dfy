/**
  The batched gap-limit scan of an extended public key (internal/wallet/scanner.go). Addresses
  are abstract: for each index, whether it can be derived and what asking for its balance gives.
  The scan stops after a run of empty addresses (the address gap limit of BIP 44, applied to
  balances) or at a fixed cap.
 */
module GapScan {
  import opened Options
  import opened Sums

  const DEFAULT_BATCH_SIZE: nat := 10
  const MAX_ADDRESSES: nat := 500

  /** What becomes of one balance query, cancellation included. */
  datatype Probe = Balance(sats: int) | Failed

  datatype Branch = Branch(derivable: nat -> bool, probe: nat -> Probe)

  datatype Scan = Scan(index: nat, gap: int, sats: int, used: nat)

  const START := Scan(0, 0, 0, 0)

  datatype ScanResult = ScanResult(balanceSats: int, addressesUsed: nat)

  function Seen(s: Scan, sats: int): Scan {
    if sats > 0 then Scan(s.index + 1, 0, s.sats + sats, s.used + 1)
    else Scan(s.index + 1, s.gap + 1, s.sats, s.used)
  }

  predicate Answers(b: Branch, i: nat) {
    b.derivable(i) && b.probe(i).Balance?
  }

  predicate Done(s: Scan, gapLimit: int) {
    s.gap >= gapLimit || s.index >= MAX_ADDRESSES
  }

  /** The reference: one address at a time. None when an address cannot be derived or asked. */
  function Sequential(b: Branch, gapLimit: int, s: Scan): (r: Option<Scan>)
    decreases MAX_ADDRESSES - s.index
  {
    if Done(s, gapLimit) then Some(s)
    else if !Answers(b, s.index) then None
    else Sequential(b, gapLimit, Seen(s, b.probe(s.index).sats))
  }

  /** How many addresses the one-at-a-time scan has asked for when it ends, a failed query included. */
  function Asked(b: Branch, gapLimit: int, s: Scan): nat
    decreases MAX_ADDRESSES - s.index
  {
    if Done(s, gapLimit) || !b.derivable(s.index) then s.index
    else if b.probe(s.index).Failed? then s.index + 1
    else Asked(b, gapLimit, Seen(s, b.probe(s.index).sats))
  }

  lemma {:induction false} AsksOn(b: Branch, gapLimit: int, s: Scan)
    ensures s.index <= Asked(b, gapLimit, s)
    ensures Sequential(b, gapLimit, s).Some? ==> Asked(b, gapLimit, s) == Sequential(b, gapLimit, s).value.index
    decreases MAX_ADDRESSES - s.index
  {
    if !Done(s, gapLimit) && Answers(b, s.index) {
      AsksOn(b, gapLimit, Seen(s, b.probe(s.index).sats));
    }
  }

  function Upto(n: nat): (r: seq<nat>)
    ensures |r| == n && forall i :: 0 <= i < n ==> r[i] == i
  {
    seq(n, i requires 0 <= i < n => i)
  }

  // ----- the program -----

  /** Derives `count` addresses from `start`; fails as a whole if one cannot be derived. */
  method DeriveAddresses(b: Branch, start: nat, count: nat) returns (addrs: Option<seq<nat>>)
    ensures addrs.Some? <==> forall i :: start <= i < start + count ==> b.derivable(i)
    ensures addrs.Some? ==> |addrs.value| == count && forall i :: 0 <= i < count ==> addrs.value[i] == start + i
  {
    var list: seq<nat> := [];
    for i := start to start + count
      invariant |list| == i - start && forall k :: 0 <= k < |list| ==> list[k] == start + k
      invariant forall k :: start <= k < i ==> b.derivable(k)
    {
      if !b.derivable(i) {
        return None;
      }
      list := list + [i];
    }
    addrs := Some(list);
  }

  /**
    The batched scan. Whatever the batch size, it finds what the one-at-a-time scan finds and, when
    it succeeds, asks for exactly the same addresses, each once and in order; a failing scan asks
    for an initial part of them.
   */
  method ScanBranch(b: Branch, gapLimit: int, maxBatch: nat)
    returns (result: Option<ScanResult>, queried: seq<nat>, derived: nat)
    requires maxBatch > 0
    ensures var r := Sequential(b, gapLimit, START);
      && (result.Some? <==> r.Some?)
      && (r.Some? ==> result.value == ScanResult(r.value.sats, r.value.used) && |queried| == r.value.index)
      && queried == Upto(|queried|) && |queried| <= Asked(b, gapLimit, START)
    ensures result.Some? ==> derived == |queried|
  {
    var s := START;
    queried, derived := [], 0;
    while s.gap < gapLimit && s.index < MAX_ADDRESSES
      invariant s.index <= MAX_ADDRESSES && 0 <= s.gap
      invariant Sequential(b, gapLimit, s) == Sequential(b, gapLimit, START)
      invariant Asked(b, gapLimit, s) == Asked(b, gapLimit, START)
      invariant queried == Upto(s.index) && derived == s.index
      decreases MAX_ADDRESSES - s.index
    {
      var batchSize := gapLimit - s.gap;
      if batchSize > maxBatch {
        batchSize := maxBatch;
      }
      var remaining := MAX_ADDRESSES - s.index;
      if batchSize > remaining {
        batchSize := remaining;
      }
      var addrs := DeriveAddresses(b, s.index, batchSize);
      if addrs.None? {
        ghost var bad :| s.index <= bad < s.index + batchSize && !b.derivable(bad);
        BatchReaches(b, gapLimit, s, bad);
        AsksOn(b, gapLimit, s);
        return None, queried, derived;
      }
      derived := derived + batchSize;
      ghost var from := s.index;
      var k := 0;
      while k < batchSize
        invariant 0 <= k <= batchSize && s.index == from + k && s.index <= MAX_ADDRESSES
        invariant 0 <= s.gap && s.gap + (batchSize - k) <= gapLimit
        invariant Sequential(b, gapLimit, s) == Sequential(b, gapLimit, START)
        invariant Asked(b, gapLimit, s) == Asked(b, gapLimit, START)
        invariant queried == Upto(s.index)
      {
        var i := addrs.value[k];
        queried := queried + [i];
        if b.probe(i).Failed? {
          return None, queried, derived;
        }
        s := Seen(s, b.probe(i).sats);
        k := k + 1;
        if s.gap >= gapLimit {
          break;
        }
      }
    }
    AsksOn(b, gapLimit, s);
    result := Some(ScanResult(s.sats, s.used));
  }

  /**
    A batch never looks further than the gap limit allows, so an address it cannot derive stops the
    scan either way.
   */
  lemma {:induction false} BatchReaches(b: Branch, gapLimit: int, s: Scan, bad: nat)
    requires 0 <= s.gap && s.index <= bad < MAX_ADDRESSES
    requires bad - s.index < gapLimit - s.gap && !b.derivable(bad)
    ensures Sequential(b, gapLimit, s) == None
    decreases bad - s.index
  {
    if s.index < bad && Answers(b, s.index) {
      BatchReaches(b, gapLimit, Seen(s, b.probe(s.index).sats), bad);
    }
  }

  /** External and change branches together; either one's failure fails the scan. */
  method ScanXpub(external: Branch, change: Branch, gapLimit: int) returns (result: Option<ScanResult>)
    ensures var e, c := Sequential(external, gapLimit, START), Sequential(change, gapLimit, START);
      result == if e.Some? && c.Some?
        then Some(ScanResult(e.value.sats + c.value.sats, e.value.used + c.value.used)) else None
  {
    var e, _, _ := ScanBranch(external, gapLimit, DEFAULT_BATCH_SIZE);
    if e.None? {
      return None;
    }
    var c, _, _ := ScanBranch(change, gapLimit, DEFAULT_BATCH_SIZE);
    if c.None? {
      return None;
    }
    result := Some(ScanResult(e.value.balanceSats + c.value.balanceSats,
                              e.value.addressesUsed + c.value.addressesUsed));
  }

  // ----- what the scan finds -----

  predicate Empty(b: Branch, i: nat) {
    b.probe(i).Balance? && b.probe(i).sats <= 0
  }

  /** The `gapLimit` addresses just below n were all empty. */
  ghost predicate GapBelow(b: Branch, n: int, gapLimit: int) {
    gapLimit <= n && forall i: nat :: n - gapLimit <= i < n ==> Empty(b, i)
  }

  function FundsBelow(b: Branch, n: nat): int {
    if n == 0 then 0
    else FundsBelow(b, n - 1) + (if b.probe(n - 1).Balance? then Pos(b.probe(n - 1).sats) else 0)
  }

  /** How many addresses below n hold something. */
  function UsedBelow(b: Branch, n: nat): nat {
    if n == 0 then 0
    else UsedBelow(b, n - 1) + (if b.probe(n - 1).Balance? && b.probe(n - 1).sats > 0 then 1 else 0)
  }

  /** The scan so far: its gap is the run of empty addresses behind it, its sum the funds below it. */
  ghost predicate Faithful(b: Branch, s: Scan) {
    && 0 <= s.gap <= s.index <= MAX_ADDRESSES
    && (forall i: nat :: s.index - s.gap <= i < s.index ==> Empty(b, i))
    && (s.gap < s.index ==> !Empty(b, s.index - s.gap - 1))
    && s.sats == FundsBelow(b, s.index) && s.used == UsedBelow(b, s.index)
  }

  /**
    The scan stops at the first index behind which lie `gapLimit` empty addresses, or at the cap,
    and reports all funds and used addresses below that index.
   */
  lemma {:induction false} StopsAtFirstGap(b: Branch, gapLimit: int, s: Scan)
    requires gapLimit > 0 && Faithful(b, s) && Sequential(b, gapLimit, s).Some?
    requires forall n: nat :: n < s.index ==> !GapBelow(b, n, gapLimit)
    ensures var r := Sequential(b, gapLimit, s).value;
      && (GapBelow(b, r.index, gapLimit) || r.index == 500)
      && (forall n: nat :: n < r.index ==> !GapBelow(b, n, gapLimit))
      && r.sats == FundsBelow(b, r.index) && r.used == UsedBelow(b, r.index)
    decreases MAX_ADDRESSES - s.index
  {
    if !Done(s, gapLimit) {
      var s' := Seen(s, b.probe(s.index).sats);
      assert !GapBelow(b, s.index, gapLimit) by {
        if s.gap < s.index {
          assert !Empty(b, s.index - s.gap - 1);
        }
      }
      StopsAtFirstGap(b, gapLimit, s');
    }
  }

  lemma ScanStopsAtFirstGap(b: Branch, gapLimit: int)
    requires gapLimit > 0 && Sequential(b, gapLimit, START).Some?
    ensures var r := Sequential(b, gapLimit, START).value;
      && (GapBelow(b, r.index, gapLimit) || r.index == 500)
      && (forall n: nat :: n < r.index ==> !GapBelow(b, n, gapLimit))
      && r.sats == FundsBelow(b, r.index) && r.used == UsedBelow(b, r.index)
  {
    StopsAtFirstGap(b, gapLimit, START);
  }

  lemma {:induction false} ScanOnlyGrows(b: Branch, gapLimit: int, s: Scan)
    requires Sequential(b, gapLimit, s).Some?
    ensures var r := Sequential(b, gapLimit, s).value;
      s.index <= r.index && s.sats <= r.sats && s.used <= r.used
    decreases MAX_ADDRESSES - s.index
  {
    if !Done(s, gapLimit) {
      ScanOnlyGrows(b, gapLimit, Seen(s, b.probe(s.index).sats));
    }
  }

  /** Raising the gap limit never finds less; a scan that succeeds with it also succeeds with the lower one. */
  lemma {:induction false} HigherLimitFindsMore(b: Branch, low: int, high: int, s: Scan)
    requires low <= high && Sequential(b, high, s).Some?
    ensures Sequential(b, low, s).Some?
    ensures var l, h := Sequential(b, low, s).value, Sequential(b, high, s).value;
      l.index <= h.index && l.sats <= h.sats && l.used <= h.used
    decreases MAX_ADDRESSES - s.index
  {
    if Done(s, low) {
      ScanOnlyGrows(b, high, s);
    } else {
      HigherLimitFindsMore(b, low, high, Seen(s, b.probe(s.index).sats));
    }
  }
}
