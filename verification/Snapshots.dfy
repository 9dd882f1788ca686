/**
  Live and backfilled portfolio snapshots (internal/db/queries.go). Live rows carry a price of
  zero or more; backfilled rows carry -1 and are rebuilt from imports and wallet balances on
  every backfill. The chart shows, per day, the row with the largest id.
 */
module Snapshots {
  import opened Options
  import opened Sums

  const MARKER: real := -1.0

  datatype Snap = Snap(id: nat, day: int, totalSats: int, price: real)

  /** A dated import, and a wallet balance with its time and day. */
  datatype Import = Import(day: int, sats: int)
  datatype Wallet = Wallet(capturedAt: int, day: int, totalSat: int)
  datatype Data = Data(imports: seq<Import>, wallets: seq<Wallet>)

  datatype Table = Table(rows: seq<Snap>, nextId: nat)

  datatype Point = Point(day: int, totalSats: int, price: real)

  // ----- days -----

  function WithDay(days: seq<int>, d: int): (r: seq<int>) {
    if days == [] then [d]
    else if d < days[0] then [d] + days
    else if d == days[0] then days
    else [days[0]] + WithDay(days[1..], d)
  }

  ghost predicate Ascending(days: seq<int>) {
    forall i, j :: 0 <= i < j < |days| ==> days[i] < days[j]
  }

  lemma {:induction false} WithDayFacts(days: seq<int>, d: int)
    requires Ascending(days)
    ensures Ascending(WithDay(days, d))
    ensures forall x :: x in WithDay(days, d) <==> x in days || x == d
  {
    if days != [] && d > days[0] {
      WithDayFacts(days[1..], d);
      var rest := WithDay(days[1..], d);
      assert days == [days[0]] + days[1..];
      forall k | 0 <= k < |rest|
        ensures days[0] < rest[k]
      {
        assert rest[k] in rest;
        if rest[k] != d {
          assert rest[k] in days[1..];
        }
      }
    }
  }

  /** SELECT DISTINCT day ... ORDER BY day */
  function DataDays(data: Data): seq<int> {
    WalletDays(data.wallets, ImportDays(data.imports))
  }

  function ImportDays(imports: seq<Import>): seq<int> {
    if imports == [] then []
    else WithDay(ImportDays(imports[..|imports| - 1]), imports[|imports| - 1].day)
  }

  function WalletDays(wallets: seq<Wallet>, days: seq<int>): seq<int> {
    if wallets == [] then days
    else WithDay(WalletDays(wallets[..|wallets| - 1], days), wallets[|wallets| - 1].day)
  }

  lemma {:induction false} DataDaysAscend(imports: seq<Import>, wallets: seq<Wallet>)
    ensures Ascending(DataDays(Data(imports, wallets)))
  {
    if wallets != [] {
      DataDaysAscend(imports, wallets[..|wallets| - 1]);
      WithDayFacts(WalletDays(wallets[..|wallets| - 1], ImportDays(imports)), wallets[|wallets| - 1].day);
    } else if imports != [] {
      DataDaysAscend(imports[..|imports| - 1], []);
      WithDayFacts(ImportDays(imports[..|imports| - 1]), imports[|imports| - 1].day);
    }
  }

  // ----- totals -----

  function ImportedBy(imports: seq<Import>, day: int): int {
    if imports == [] then 0
    else
      var i := imports[|imports| - 1];
      ImportedBy(imports[..|imports| - 1], day) + (if i.day <= day then i.sats else 0)
  }

  /** The latest wallet balance of that day or before. */
  function WalletBy(wallets: seq<Wallet>, day: int): Option<Wallet> {
    if wallets == [] then None
    else
      var rest := WalletBy(wallets[..|wallets| - 1], day);
      var w := wallets[|wallets| - 1];
      if w.day <= day && (rest.None? || w.capturedAt > rest.value.capturedAt) then Some(w) else rest
  }

  function TotalOn(data: Data, day: int): int {
    var w := WalletBy(data.wallets, day);
    ImportedBy(data.imports, day) + (if w.Some? then w.value.totalSat else 0)
  }

  // ----- the table as a value -----

  function WithoutMarker(rows: seq<Snap>): seq<Snap> {
    if rows == [] then []
    else
      var rest := WithoutMarker(rows[..|rows| - 1]);
      if rows[|rows| - 1].price == MARKER then rest else rest + [rows[|rows| - 1]]
  }

  predicate HasLive(rows: seq<Snap>, day: int) {
    exists i :: 0 <= i < |rows| && rows[i].day == day && rows[i].price >= 0.0
  }

  function Add(t: Table, day: int, total: int, price: real): Table {
    Table(t.rows + [Snap(t.nextId, day, total, price)], t.nextId + 1)
  }

  function Fill(t: Table, data: Data, days: seq<int>): Table {
    if days == [] then t
    else
      var day := days[|days| - 1];
      var t' := Fill(t, data, days[..|days| - 1]);
      if HasLive(t'.rows, day) then t' else Add(t', day, TotalOn(data, day), MARKER)
  }

  function Backfilled(t: Table, data: Data): Table {
    Fill(t.(rows := WithoutMarker(t.rows)), data, DataDays(data))
  }

  /** The row the chart's query picks for a day: the one with the largest id. */
  function Picked(rows: seq<Snap>, day: int): Option<Snap> {
    if rows == [] then None
    else
      var rest := Picked(rows[..|rows| - 1], day);
      var r := rows[|rows| - 1];
      if r.day == day && (rest.None? || r.id > rest.value.id) then Some(r) else rest
  }

  function LastLive(rows: seq<Snap>, day: int): Option<Snap> {
    if rows == [] then None
    else if rows[|rows| - 1].day == day && rows[|rows| - 1].price >= 0.0 then Some(rows[|rows| - 1])
    else LastLive(rows[..|rows| - 1], day)
  }

  function Shown(s: Snap): Point {
    Point(s.day, s.totalSats, if s.price > 0.0 then s.price else 0.0)
  }

  function RowDays(rows: seq<Snap>, cutoff: int): seq<int> {
    if rows == [] then []
    else
      var rest := RowDays(rows[..|rows| - 1], cutoff);
      if rows[|rows| - 1].day > cutoff then WithDay(rest, rows[|rows| - 1].day) else rest
  }

  function PointOf(rows: seq<Snap>, day: int): Option<Point> {
    var p := Picked(rows, day);
    if p.Some? then Some(Shown(p.value)) else None
  }

  // ----- the program -----

  class Database {
    var table: Table
    var data: Data

    constructor ()
      ensures table == Table([], 1) && data == Data([], [])
    {
      table, data := Table([], 1), Data([], []);
    }

    method InsertPortfolioSnapshot(today: int, totalSats: int, price: real)
      modifies this`table
      ensures table == Add(old(table), today, totalSats, price)
    {
      table := Table(table.rows + [Snap(table.nextId, today, totalSats, price)], table.nextId + 1);
    }

    method BackfillPortfolioSnapshots() returns (inserted: nat)
      modifies this`table
      ensures table == Backfilled(old(table), data)
      ensures inserted == table.nextId - old(table).nextId
    {
      var rows, nextId: nat := WithoutMarker(table.rows), table.nextId;
      var dates := DataDays(data);
      inserted := 0;
      ghost var cleared := Table(rows, nextId);
      for k := 0 to |dates|
        invariant Table(rows, nextId) == Fill(cleared, data, dates[..k])
        invariant inserted == nextId - table.nextId
      {
        assert dates[..k + 1][..k] == dates[..k];
        var day := dates[k];
        if !HasLive(rows, day) {
          var total := ImportedBy(data.imports, day);
          var w := WalletBy(data.wallets, day);
          if w.Some? {
            total := total + w.value.totalSat;
          }
          rows, nextId := rows + [Snap(nextId, day, total, MARKER)], nextId + 1;
          inserted := inserted + 1;
        }
      }
      assert dates[..|dates|] == dates;
      table := Table(rows, nextId);
    }

    /** One point per day after the cutoff day, oldest first. */
    method PortfolioSnapshots(cutoff: int) returns (points: seq<Point>)
      ensures var days := RowDays(table.rows, cutoff);
        && |points| == |days|
        && forall k :: 0 <= k < |days| ==> Some(points[k]) == PointOf(table.rows, days[k])
    {
      var days := RowDays(table.rows, cutoff);
      points := [];
      for k := 0 to |days|
        invariant |points| == k
        invariant forall i :: 0 <= i < k ==> Some(points[i]) == PointOf(table.rows, days[i])
      {
        RowDaysMembers(table.rows, cutoff, days[k]);
        PickedIffRow(table.rows, days[k]);
        assert days[k] in days;
        var p := Picked(table.rows, days[k]);
        points := points + [Shown(p.value)];
      }
    }
  }

  lemma {:induction false} RowDaysAscend(rows: seq<Snap>, cutoff: int)
    ensures Ascending(RowDays(rows, cutoff))
  {
    if rows != [] {
      RowDaysAscend(rows[..|rows| - 1], cutoff);
      WithDayFacts(RowDays(rows[..|rows| - 1], cutoff), rows[|rows| - 1].day);
    }
  }

  lemma {:induction false} RowDaysMembers(rows: seq<Snap>, cutoff: int, day: int)
    ensures day in RowDays(rows, cutoff) <==> day > cutoff && exists i :: 0 <= i < |rows| && rows[i].day == day
  {
    if rows != [] {
      var n := |rows| - 1;
      RowDaysMembers(rows[..n], cutoff, day);
      RowDaysAscend(rows[..n], cutoff);
      WithDayFacts(RowDays(rows[..n], cutoff), rows[n].day);
      if i :| 0 <= i < |rows| && rows[i].day == day {
        assert i < n ==> rows[..n][i].day == day;
      }
      if i :| 0 <= i < n && rows[..n][i].day == day {
        assert rows[i].day == day;
      }
    }
  }

  lemma {:induction false} PickedIffRow(rows: seq<Snap>, day: int)
    ensures Picked(rows, day).Some? <==> exists i :: 0 <= i < |rows| && rows[i].day == day
    ensures Picked(rows, day).Some? ==> Picked(rows, day).value in rows && Picked(rows, day).value.day == day
  {
    if rows != [] {
      var n := |rows| - 1;
      PickedIffRow(rows[..n], day);
      assert rows == rows[..n] + [rows[n]];
      if i :| 0 <= i < |rows| && rows[i].day == day {
        assert i < n ==> rows[..n][i].day == day;
      }
      if i :| 0 <= i < n && rows[..n][i].day == day {
        assert rows[i].day == day;
      }
    }
  }

  // ----- what every run keeps -----

  /** Ids grow down the table; rows are live or marked; no marked row comes after a live row of its day. */
  ghost predicate Valid(t: Table) {
    && (forall i :: 0 <= i < |t.rows| ==>
          t.rows[i].id < t.nextId && (t.rows[i].price >= 0.0 || t.rows[i].price == MARKER))
    && (forall i, j :: 0 <= i < j < |t.rows| ==> t.rows[i].id < t.rows[j].id)
    && (forall i, j :: 0 <= i < j < |t.rows| && t.rows[i].day == t.rows[j].day && t.rows[i].price >= 0.0 ==>
          t.rows[j].price >= 0.0)
  }

  /** A live row, a backfill over the data as it then is, or any change of the data. */
  datatype Action = Live(today: int, total: int, price: real) | Backfill | NewData(data: Data)

  datatype World = World(table: Table, data: Data)

  predicate Allowed(a: Action) {
    a.Live? ==> a.price >= 0.0
  }

  function Next(w: World, a: Action): World {
    match a
    case Live(today, total, price) => w.(table := Add(w.table, today, total, price))
    case Backfill => w.(table := Backfilled(w.table, w.data))
    case NewData(data) => w.(data := data)
  }

  ghost predicate IsRun(states: seq<World>, actions: seq<Action>) {
    && |states| == |actions| + 1 && states[0].table == Table([], 1)
    && forall n :: 0 <= n < |actions| ==> Allowed(actions[n]) && states[n + 1] == Next(states[n], actions[n])
  }

  function LiveRows(rows: seq<Snap>): seq<Snap> {
    if rows == [] then []
    else
      var rest := LiveRows(rows[..|rows| - 1]);
      if rows[|rows| - 1].price >= 0.0 then rest + [rows[|rows| - 1]] else rest
  }

  lemma AddKeepsValid(t: Table, day: int, total: int, price: real)
    requires Valid(t) && (price >= 0.0 || (price == MARKER && !HasLive(t.rows, day)))
    ensures Valid(Add(t, day, total, price))
  {
  }

  lemma AddLiveRows(t: Table, day: int, total: int, price: real)
    ensures LiveRows(Add(t, day, total, price).rows)
         == if price >= 0.0 then LiveRows(t.rows) + [Snap(t.nextId, day, total, price)] else LiveRows(t.rows)
  {
    assert Add(t, day, total, price).rows[..|t.rows|] == t.rows;
  }

  lemma {:induction false} ClearedMembers(rows: seq<Snap>, s: Snap)
    ensures s in WithoutMarker(rows) <==> s in rows && s.price != MARKER
  {
    if rows != [] {
      var n := |rows| - 1;
      assert rows == rows[..n] + [rows[n]];
      ClearedMembers(rows[..n], s);
    }
  }

  lemma {:induction false} ClearedIsLive(t: Table)
    requires Valid(t)
    ensures WithoutMarker(t.rows) == LiveRows(t.rows) == LiveRows(WithoutMarker(t.rows))
    decreases |t.rows|
  {
    if t.rows != [] {
      var n := |t.rows| - 1;
      ClearedIsLive(t.(rows := t.rows[..n]));
      var cleared := WithoutMarker(t.rows[..n]);
      assert (cleared + [t.rows[n]])[..|cleared|] == cleared;
    }
  }

  lemma {:induction false} ClearedIsValid(t: Table)
    requires Valid(t)
    ensures Valid(t.(rows := WithoutMarker(t.rows)))
    decreases |t.rows|
  {
    if t.rows != [] {
      var n := |t.rows| - 1;
      var cleared := WithoutMarker(t.rows[..n]);
      ClearedIsValid(t.(rows := t.rows[..n]));
      forall i | 0 <= i < |cleared|
        ensures cleared[i].id < t.rows[n].id
      {
        assert cleared[i] in cleared;
        ClearedMembers(t.rows[..n], cleared[i]);
      }
    }
  }

  /** Removing the marked rows keeps the live rows, in order, and leaves nothing else. */
  lemma ClearKeepsLive(t: Table)
    requires Valid(t)
    ensures Valid(t.(rows := WithoutMarker(t.rows)))
    ensures WithoutMarker(t.rows) == LiveRows(t.rows) == LiveRows(WithoutMarker(t.rows))
    ensures forall s :: s in WithoutMarker(t.rows) <==> s in t.rows && s.price != MARKER
  {
    ClearedIsValid(t);
    ClearedIsLive(t);
    forall s {
      ClearedMembers(t.rows, s);
    }
  }

  lemma {:induction false} FillKeepsValid(t: Table, data: Data, days: seq<int>)
    requires Valid(t)
    ensures Valid(Fill(t, data, days)) && LiveRows(Fill(t, data, days).rows) == LiveRows(t.rows)
    ensures t.rows <= Fill(t, data, days).rows
  {
    if days != [] {
      var n := |days| - 1;
      FillKeepsValid(t, data, days[..n]);
      var t' := Fill(t, data, days[..n]);
      if !HasLive(t'.rows, days[n]) {
        AddKeepsValid(t', days[n], TotalOn(data, days[n]), MARKER);
        AddLiveRows(t', days[n], TotalOn(data, days[n]), MARKER);
      }
    }
  }

  /** A backfill keeps the invariant and every live row. */
  lemma BackfillKeepsLive(t: Table, data: Data)
    requires Valid(t)
    ensures Valid(Backfilled(t, data)) && LiveRows(Backfilled(t, data).rows) == LiveRows(t.rows)
  {
    ClearKeepsLive(t);
    FillKeepsValid(t.(rows := WithoutMarker(t.rows)), data, DataDays(data));
  }

  lemma StepKeepsValid(w: World, a: Action)
    requires Valid(w.table) && Allowed(a)
    ensures Valid(Next(w, a).table) && LiveRows(w.table.rows) <= LiveRows(Next(w, a).table.rows)
  {
    match a {
      case Live(today, total, price) =>
        AddKeepsValid(w.table, today, total, price);
        AddLiveRows(w.table, today, total, price);
      case Backfill => BackfillKeepsLive(w.table, w.data);
      case NewData(_) =>
    }
  }

  lemma {:induction false} RunKeepsValid(states: seq<World>, actions: seq<Action>, n: nat)
    requires IsRun(states, actions) && n < |states|
    ensures Valid(states[n].table)
  {
    if n > 0 {
      RunKeepsValid(states, actions, n - 1);
      StepKeepsValid(states[n - 1], actions[n - 1]);
    }
  }

  /** Live rows are never removed or reordered. */
  lemma {:induction false} LiveRowsOnlyGrow(states: seq<World>, actions: seq<Action>, m: nat, n: nat)
    requires IsRun(states, actions) && m <= n < |states|
    ensures LiveRows(states[m].table.rows) <= LiveRows(states[n].table.rows)
    decreases n
  {
    if m < n {
      LiveRowsOnlyGrow(states, actions, m, n - 1);
      RunKeepsValid(states, actions, n - 1);
      StepKeepsValid(states[n - 1], actions[n - 1]);
    }
  }

  lemma {:induction false} LastLiveIff(rows: seq<Snap>, day: int)
    ensures LastLive(rows, day).Some? <==> HasLive(rows, day)
  {
    if rows != [] {
      var n := |rows| - 1;
      LastLiveIff(rows[..n], day);
      if HasLive(rows[..n], day) {
        var i :| 0 <= i < n && rows[..n][i].day == day && rows[..n][i].price >= 0.0;
        assert rows[i] == rows[..n][i];
      }
      if HasLive(rows, day) && !(rows[n].day == day && rows[n].price >= 0.0) {
        var i :| 0 <= i < |rows| && rows[i].day == day && rows[i].price >= 0.0;
        assert rows[..n][i] == rows[i];
      }
    }
  }

  /** Under the invariant, the largest id of a day with a live row is its last live row. */
  lemma {:induction false} PickedIsLastLive(t: Table, day: int)
    requires Valid(t) && HasLive(t.rows, day)
    ensures Picked(t.rows, day) == LastLive(t.rows, day)
    decreases |t.rows|
  {
    var n := |t.rows| - 1;
    var before := t.(rows := t.rows[..n]);
    assert Valid(before);
    if t.rows[n].day != day {
      assert HasLive(before.rows, day) by {
        var i :| 0 <= i < |t.rows| && t.rows[i].day == day && t.rows[i].price >= 0.0;
        assert before.rows[i] == t.rows[i];
      }
      PickedIsLastLive(before, day);
    } else {
      PickedIffRow(before.rows, day);
      if Picked(before.rows, day).Some? {
        var i :| 0 <= i < n && before.rows[i] == Picked(before.rows, day).value;
        assert t.rows[i].id < t.rows[n].id;
      }
    }
  }

  /**
    Precedence: over every interleaving of live inserts and backfills, a day with a live row shows
    its last live row.
   */
  lemma LiveTakesPrecedence(states: seq<World>, actions: seq<Action>, n: nat, day: int)
    requires IsRun(states, actions) && n < |states| && HasLive(states[n].table.rows, day)
    ensures LastLive(states[n].table.rows, day).Some?
    ensures PointOf(states[n].table.rows, day) == Some(Shown(LastLive(states[n].table.rows, day).value))
  {
    RunKeepsValid(states, actions, n);
    PickedIsLastLive(states[n].table, day);
    LastLiveIff(states[n].table.rows, day);
  }

  // ----- what a backfill shows -----

  lemma {:induction false} LastLiveOfLiveRows(rows: seq<Snap>, day: int)
    ensures LastLive(rows, day) == LastLive(LiveRows(rows), day)
  {
    if rows != [] {
      var n := |rows| - 1;
      LastLiveOfLiveRows(rows[..n], day);
      var rest := LiveRows(rows[..n]);
      assert (rest + [rows[n]])[..|rest|] == rest;
    }
  }

  lemma AddPicks(t: Table, added: int, total: int, price: real, day: int)
    requires price < 0.0
    ensures HasLive(Add(t, added, total, price).rows, day) <==> HasLive(t.rows, day)
    ensures added != day ==> PointOf(Add(t, added, total, price).rows, day) == PointOf(t.rows, day)
    ensures added == day && PointOf(t.rows, day).None? ==>
      PointOf(Add(t, added, total, price).rows, day) == Some(Point(day, total, 0.0))
  {
    var rows := Add(t, added, total, price).rows;
    assert rows[..|t.rows|] == t.rows;
    if i :| 0 <= i < |t.rows| && t.rows[i].day == day && t.rows[i].price >= 0.0 {
      assert rows[i] == t.rows[i];
    }
  }

  lemma {:induction false} FillPicks(t: Table, data: Data, days: seq<int>, day: int)
    requires Valid(t) && Ascending(days) && !HasLive(t.rows, day)
    requires forall i :: 0 <= i < |t.rows| ==> t.rows[i].day != day
    ensures PointOf(Fill(t, data, days).rows, day)
         == if day in days then Some(Point(day, TotalOn(data, day), 0.0)) else None
    ensures !HasLive(Fill(t, data, days).rows, day)
  {
    if days == [] {
      PickedIffRow(t.rows, day);
    } else {
      var n := |days| - 1;
      var t' := Fill(t, data, days[..n]);
      FillPicks(t, data, days[..n], day);
      assert days == days[..n] + [days[n]];
      assert day == days[n] ==> day !in days[..n];
      if !HasLive(t'.rows, days[n]) {
        AddPicks(t', days[n], TotalOn(data, days[n]), MARKER, day);
      }
    }
  }

  /**
    After a backfill a day shows its last live row, or else the cumulative total of the data if it
    has any that day.
   */
  lemma BackfillShows(t: Table, data: Data, day: int)
    requires Valid(t)
    ensures var live := LastLive(t.rows, day);
      PointOf(Backfilled(t, data).rows, day) ==
        if live.Some? then Some(Shown(live.value))
        else if day in DataDays(data) then Some(Point(day, TotalOn(data, day), 0.0))
        else None
  {
    var cleared := t.(rows := WithoutMarker(t.rows));
    var filled := Backfilled(t, data);
    BackfillKeepsLive(t, data);
    ClearKeepsLive(t);
    DataDaysAscend(data.imports, data.wallets);
    LastLiveIff(t.rows, day);
    LastLiveOfLiveRows(t.rows, day);
    LastLiveOfLiveRows(filled.rows, day);
    LastLiveIff(filled.rows, day);
    if HasLive(t.rows, day) {
      PickedIsLastLive(filled, day);
    } else {
      forall i | 0 <= i < |cleared.rows|
        ensures cleared.rows[i].day != day
      {
        assert cleared.rows[i] in t.rows;
      }
      FillPicks(cleared, data, DataDays(data), day);
    }
  }

  /** Backfilling again over the same data shows the same days and totals, whatever ids it uses. */
  lemma BackfillAgainShowsSame(t: Table, data: Data, day: int)
    requires Valid(t)
    ensures var once := Backfilled(t, data);
      PointOf(Backfilled(once, data).rows, day) == PointOf(once.rows, day)
  {
    var once := Backfilled(t, data);
    BackfillKeepsLive(t, data);
    BackfillShows(t, data, day);
    BackfillShows(once, data, day);
    LastLiveOfLiveRows(t.rows, day);
    LastLiveOfLiveRows(once.rows, day);
  }

  lemma {:induction false} AscendingUnique(a: seq<int>, b: seq<int>)
    requires Ascending(a) && Ascending(b) && forall d :: d in a <==> d in b
    ensures a == b
  {
    assert b != [] ==> b[0] in b && b[0] in a;
    assert a != [] ==> a[0] in a && a[0] in b;
    if a != [] {
      var i :| 0 <= i < |b| && b[i] == a[0];
      var j :| 0 <= j < |a| && a[j] == b[0];
      assert a[0] == b[0];
      forall d
        ensures d in a[1..] <==> d in b[1..]
      {
        assert a == [a[0]] + a[1..] && b == [b[0]] + b[1..];
        if d in a[1..] {
          var k :| 0 <= k < |a[1..]| && a[1..][k] == d;
          assert a[k + 1] == d && d in b;
        }
        if d in b[1..] {
          var k :| 0 <= k < |b[1..]| && b[1..][k] == d;
          assert b[k + 1] == d && d in a;
        }
      }
      AscendingUnique(a[1..], b[1..]);
    }
  }

  /** So the chart lists the same days for every cutoff. */
  lemma BackfillAgainListsSameDays(t: Table, data: Data, cutoff: int)
    requires Valid(t)
    ensures var once := Backfilled(t, data);
      RowDays(Backfilled(once, data).rows, cutoff) == RowDays(once.rows, cutoff)
  {
    var once := Backfilled(t, data);
    var twice := Backfilled(once, data);
    RowDaysAscend(once.rows, cutoff);
    RowDaysAscend(twice.rows, cutoff);
    forall d
      ensures d in RowDays(twice.rows, cutoff) <==> d in RowDays(once.rows, cutoff)
    {
      BackfillAgainShowsSame(t, data, d);
      RowDaysMembers(once.rows, cutoff, d);
      RowDaysMembers(twice.rows, cutoff, d);
      PickedIffRow(once.rows, d);
      PickedIffRow(twice.rows, d);
    }
    AscendingUnique(RowDays(twice.rows, cutoff), RowDays(once.rows, cutoff));
  }

  // ----- days, totals and points, in plain terms -----

  /** Some import or wallet balance is of that day. */
  ghost predicate HasData(data: Data, day: int) {
    (exists i :: 0 <= i < |data.imports| && data.imports[i].day == day)
    || exists i :: 0 <= i < |data.wallets| && data.wallets[i].day == day
  }

  lemma {:induction false} DaysHaveData(imports: seq<Import>, wallets: seq<Wallet>, day: int)
    ensures day in DataDays(Data(imports, wallets)) <==> HasData(Data(imports, wallets), day)
  {
    if wallets != [] {
      var n := |wallets| - 1;
      DaysHaveData(imports, wallets[..n], day);
      DataDaysAscend(imports, wallets[..n]);
      WithDayFacts(WalletDays(wallets[..n], ImportDays(imports)), wallets[n].day);
      if i :| 0 <= i < n && wallets[..n][i].day == day {
        assert wallets[i].day == day;
      }
      if i :| 0 <= i < |wallets| && wallets[i].day == day {
        assert i < n ==> wallets[..n][i].day == day;
      }
    } else if imports != [] {
      var n := |imports| - 1;
      DaysHaveData(imports[..n], [], day);
      DataDaysAscend(imports[..n], []);
      WithDayFacts(ImportDays(imports[..n]), imports[n].day);
      if i :| 0 <= i < n && imports[..n][i].day == day {
        assert imports[i].day == day;
      }
      if i :| 0 <= i < |imports| && imports[i].day == day {
        assert i < n ==> imports[..n][i].day == day;
      }
    }
  }

  /** The satoshis of an import, from its day on. */
  function FromItsDay(day: int): Import -> int {
    (i: Import) => if i.day <= day then i.sats else 0
  }

  lemma {:induction false} ImportedIsSum(imports: seq<Import>, day: int)
    ensures ImportedBy(imports, day) == SumBy(imports, FromItsDay(day))
  {
    if imports != [] {
      var n := |imports| - 1;
      ImportedIsSum(imports[..n], day);
      assert imports == imports[..n] + [imports[n]];
      SumByConcat(imports[..n], [imports[n]], FromItsDay(day));
      assert SumBy([imports[n]], FromItsDay(day)) == FromItsDay(day)(imports[n]) + SumBy([], FromItsDay(day));
    }
  }

  /** The wallet had no balance by that day, or w is the last it had. */
  ghost predicate IsLastBy(w: Option<Wallet>, wallets: seq<Wallet>, day: int) {
    match w
    case None => forall v :: v in wallets ==> v.day > day
    case Some(u) =>
      && u in wallets && u.day <= day
      && forall v :: v in wallets && v.day <= day ==> v.capturedAt <= u.capturedAt
  }

  function BalanceOf(w: Option<Wallet>): int {
    if w.Some? then w.value.totalSat else 0
  }

  lemma {:induction false} WalletIsLast(wallets: seq<Wallet>, day: int)
    ensures IsLastBy(WalletBy(wallets, day), wallets, day)
  {
    if wallets != [] {
      var n := |wallets| - 1;
      assert wallets == wallets[..n] + [wallets[n]];
      WalletIsLast(wallets[..n], day);
    }
  }

  /** The total of a day: all that was imported by then, and the wallet's last balance by then, if it had one. */
  lemma TotalExactly(data: Data, day: int) returns (w: Option<Wallet>)
    ensures IsLastBy(w, data.wallets, day)
    ensures TotalOn(data, day) == SumBy(data.imports, FromItsDay(day)) + BalanceOf(w)
  {
    w := WalletBy(data.wallets, day);
    ImportedIsSum(data.imports, day);
    WalletIsLast(data.wallets, day);
  }

  /** Row i is the day's last live one: of price zero or more, with no other after it. */
  ghost predicate IsLastLive(rows: seq<Snap>, day: int, i: int) {
    && 0 <= i < |rows| && rows[i].day == day && rows[i].price >= 0.0
    && forall j :: i < j < |rows| && rows[j].day == day ==> rows[j].price < 0.0
  }

  lemma {:induction false} LastLiveExactly(rows: seq<Snap>, day: int)
    ensures match LastLive(rows, day) {
      case None => forall i :: 0 <= i < |rows| && rows[i].day == day ==> rows[i].price < 0.0
      case Some(s) => exists i :: IsLastLive(rows, day, i) && rows[i] == s
    }
  {
    if rows != [] {
      var n := |rows| - 1;
      LastLiveExactly(rows[..n], day);
      if rows[n].day == day && rows[n].price >= 0.0 {
        assert IsLastLive(rows, day, n);
      } else if LastLive(rows[..n], day).Some? {
        var i :| IsLastLive(rows[..n], day, i) && rows[..n][i] == LastLive(rows[..n], day).value;
        assert IsLastLive(rows, day, i);
      } else {
        forall i | 0 <= i < |rows| && rows[i].day == day
          ensures rows[i].price < 0.0
        {
          assert i < n ==> rows[..n][i] == rows[i];
        }
      }
    }
  }

  /** Over every run, a day with a live row shows the total and the price of its last one, as they are. */
  lemma LastLiveIsShown(states: seq<World>, actions: seq<Action>, n: nat, day: int, i: int)
    requires IsRun(states, actions) && n < |states| && IsLastLive(states[n].table.rows, day, i)
    ensures PointOf(states[n].table.rows, day)
         == Some(Point(day, states[n].table.rows[i].totalSats, states[n].table.rows[i].price))
  {
    var rows := states[n].table.rows;
    LiveTakesPrecedence(states, actions, n, day);
    LastLiveExactly(rows, day);
    var k :| IsLastLive(rows, day, k) && Some(rows[k]) == LastLive(rows, day);
    assert k == i;
  }

  /**
    After a backfill: a day with a live row shows the last one; any other day shows, at price zero,
    all that was imported by then and the wallet's last balance, if some data is of that day; the
    remaining days show nothing.
   */
  lemma BackfillExactly(t: Table, data: Data, day: int) returns (w: Option<Wallet>)
    requires Valid(t)
    ensures IsLastBy(w, data.wallets, day)
    ensures var point := PointOf(Backfilled(t, data).rows, day);
      && (forall i :: IsLastLive(t.rows, day, i) ==>
            point == Some(Point(day, t.rows[i].totalSats, t.rows[i].price)))
      && ((forall i :: 0 <= i < |t.rows| && t.rows[i].day == day ==> t.rows[i].price < 0.0) ==>
            point == if HasData(data, day)
                     then Some(Point(day, SumBy(data.imports, FromItsDay(day)) + BalanceOf(w), 0.0))
                     else None)
  {
    w := TotalExactly(data, day);
    BackfillShows(t, data, day);
    LastLiveExactly(t.rows, day);
    DaysHaveData(data.imports, data.wallets, day);
    forall i | IsLastLive(t.rows, day, i)
      ensures PointOf(Backfilled(t, data).rows, day) == Some(Point(day, t.rows[i].totalSats, t.rows[i].price))
    {
      var k :| IsLastLive(t.rows, day, k) && Some(t.rows[k]) == LastLive(t.rows, day);
      assert k == i;
    }
  }

  /** A backfill removes the rows marked with a price of minus one, and no others. */
  lemma OnlyMarkedGo(rows: seq<Snap>, s: Snap)
    ensures s in WithoutMarker(rows) <==> s in rows && s.price != -1.0
  {
    ClearedMembers(rows, s);
  }
}
