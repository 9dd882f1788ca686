/**
  Importing exchange rows (internal/db/queries.go): every row is kept in exchange_imports
  under (source, external id, type), and purchases are indexed as lots in btc_lots under
  (source, external id). Re-imports overwrite rows and reprice lots.
 */
module Imports {
  import opened Options
  import opened Sums

  datatype Source = Strike | River | Coinbase | Swan

  /** A parsed row. `rest` stands for the other columns kept in raw_data. */
  datatype Row = Row(externalID: string, txType: string, date: int, amountSat: int,
                     costBasisUSD: real, amountUSD: real, rest: string)

  datatype ImportKey = ImportKey(source: Source, externalID: string, txType: string)

  datatype LotKey = LotKey(source: Source, externalID: string)

  datatype Lot = Lot(acquiredAt: int, amountSat: int, priceUSD: real)

  datatype Tables = Tables(imports: map<ImportKey, Row>, lots: map<LotKey, Lot>)

  datatype Summary = Summary(total: nat, newPurchases: nat, duplicates: nat, updated: nat)

  function LowerChar(c: char): char {
    if 'A' <= c <= 'Z' then (c as int + 32) as char else c
  }

  function Lower(s: string): string {
    seq(|s|, i requires 0 <= i < |s| => LowerChar(s[i]))
  }

  predicate IsPurchase(source: Source, txType: string) {
    match source
    case Strike => Lower(txType) == "purchase" || Lower(txType) == "buy"
    case River => txType == "buy"
    case Coinbase => txType == "buy"
    case Swan => txType == "purchase"
  }

  function PriceOf(row: Row): real {
    if row.costBasisUSD == 0.0 then row.amountUSD else row.costBasisUSD
  }

  /** The lot a row stands for, if any. Swan also books deposits, and withdrawals as negative lots, at price zero. */
  function LotOf(source: Source, row: Row): Option<Lot> {
    if source == Swan then
      if IsPurchase(Swan, row.txType) && row.amountSat > 0 then Some(Lot(row.date, row.amountSat, PriceOf(row)))
      else if row.txType == "deposit" && row.amountSat > 0 then Some(Lot(row.date, row.amountSat, 0.0))
      else if row.txType == "withdrawal" && row.amountSat < 0 then Some(Lot(row.date, row.amountSat, 0.0))
      else None
    else if IsPurchase(source, row.txType) && row.amountSat > 0 && PriceOf(row) != 0.0 then
      Some(Lot(row.date, row.amountSat, PriceOf(row)))
    else None
  }

  function KeyOf(source: Source, row: Row): ImportKey {
    ImportKey(source, row.externalID, row.txType)
  }

  // ----- one row -----

  predicate IsDuplicate(t: Tables, source: Source, row: Row) {
    KeyOf(source, row) in t.imports && t.imports[KeyOf(source, row)] == row
  }

  /** What a new row makes of the lots. */
  function LotsAfter(lots: map<LotKey, Lot>, source: Source, row: Row): map<LotKey, Lot> {
    var lot, key := LotOf(source, row), LotKey(source, row.externalID);
    if lot.None? then lots
    else if key in lots then lots[key := lots[key].(priceUSD := lot.value.priceUSD)]
    else lots[key := lot.value]
  }

  function ImportRow(t: Tables, source: Source, row: Row): Tables {
    if IsDuplicate(t, source, row) then t
    else Tables(t.imports[KeyOf(source, row) := row], LotsAfter(t.lots, source, row))
  }

  function Count(s: Summary, t: Tables, source: Source, row: Row): Summary {
    if IsDuplicate(t, source, row) then s.(duplicates := s.duplicates + 1)
    else if LotOf(source, row).None? then s
    else if LotKey(source, row.externalID) in t.lots then s.(updated := s.updated + 1)
    else if IsPurchase(source, row.txType) then s.(newPurchases := s.newPurchases + 1)
    else s
  }

  function ImportRows(t: Tables, source: Source, rows: seq<Row>): Tables {
    if rows == [] then t else ImportRow(ImportRows(t, source, rows[..|rows| - 1]), source, rows[|rows| - 1])
  }

  function Counted(t: Tables, source: Source, rows: seq<Row>, total: nat): Summary {
    if rows == [] then Summary(total, 0, 0, 0)
    else
      var n := |rows| - 1;
      Count(Counted(t, source, rows[..n], total), ImportRows(t, source, rows[..n]), source, rows[n])
  }

  function Cleared(t: Tables, source: Source): Tables {
    Tables(map k | k in t.imports && k.source != source :: t.imports[k],
           map k | k in t.lots && k.source != source :: t.lots[k])
  }

  // ----- the program -----

  class Database {
    var imports: map<ImportKey, Row>
    var lots: map<LotKey, Lot>

    constructor ()
      ensures State() == Tables(map[], map[])
    {
      imports, lots := map[], map[];
    }

    function State(): Tables
      reads this
    {
      Tables(imports, lots)
    }

    /** One import: a single transaction, undone as a whole when it fails. */
    method Import(source: Source, rows: seq<Row>, fails: bool) returns (summary: Option<Summary>)
      modifies this
      ensures State() == if fails then old(State()) else ImportRows(old(State()), source, rows)
      ensures summary == if fails then None else Some(Counted(old(State()), source, rows, |rows|))
    {
      var imports', lots' := imports, lots;
      var s := Summary(|rows|, 0, 0, 0);
      for i := 0 to |rows|
        invariant Tables(imports', lots') == ImportRows(old(State()), source, rows[..i])
        invariant s == Counted(old(State()), source, rows[..i], |rows|)
      {
        assert rows[..i + 1][..i] == rows[..i];
        var row := rows[i];
        var key := ImportKey(source, row.externalID, row.txType);
        if key in imports' && imports'[key] == row {
          s := s.(duplicates := s.duplicates + 1);
        } else {
          imports' := imports'[key := row];
          var lot := LotOf(source, row);
          if lot.Some? {
            var lotKey := LotKey(source, row.externalID);
            if lotKey !in lots' {
              lots' := lots'[lotKey := lot.value];
              if IsPurchase(source, row.txType) {
                s := s.(newPurchases := s.newPurchases + 1);
              }
            } else {
              lots' := lots'[lotKey := lots'[lotKey].(priceUSD := lot.value.priceUSD)];
              s := s.(updated := s.updated + 1);
            }
          }
        }
      }
      assert rows[..|rows|] == rows;
      if fails {
        return None;
      }
      imports, lots := imports', lots';
      summary := Some(s);
    }

    method ClearExchangeSource(source: Source) returns (importsRemoved: nat, lotsRemoved: nat)
      modifies this
      ensures State() == Cleared(old(State()), source)
      ensures importsRemoved == |set k | k in old(imports) && k.source == source|
      ensures lotsRemoved == |set k | k in old(lots) && k.source == source|
    {
      lotsRemoved := |set k | k in lots && k.source == source|;
      importsRemoved := |set k | k in imports && k.source == source|;
      lots := map k | k in lots && k.source != source :: lots[k];
      imports := map k | k in imports && k.source != source :: imports[k];
    }
  }

  // ----- lots as an index of imports -----

  /** The lots are exactly what the kept rows stand for. */
  ghost predicate IsIndex(t: Tables) {
    && (forall k :: k in t.imports ==> t.imports[k].externalID == k.externalID && t.imports[k].txType == k.txType)
    && (forall k :: k in t.imports && LotOf(k.source, t.imports[k]).Some? ==>
          LotKey(k.source, k.externalID) in t.lots
          && t.lots[LotKey(k.source, k.externalID)] == LotOf(k.source, t.imports[k]).value)
    && (forall l :: l in t.lots ==> exists k :: k in t.imports && Yields(t, k, l))
  }

  /** The row kept under k is the one lot l stands for. */
  ghost predicate Yields(t: Tables, k: ImportKey, l: LotKey) {
    k in t.imports && k.source == l.source && k.externalID == l.externalID && LotOf(k.source, t.imports[k]).Some?
  }

  /**
    What must hold of a new or changed row for the index to survive it, checkable beforehand:
    a row that stands for a lot agrees in date and amount with the lot already kept for its id,
    and in price with the lots of that id's rows of other types; a row that stands for none
    does not replace the only row its id's lot came from.
   */
  ghost predicate Agrees(t: Tables, source: Source, row: Row) {
    var key, l := KeyOf(source, row), LotKey(source, row.externalID);
    var lot := LotOf(source, row);
    if IsDuplicate(t, source, row) then true
    else if lot.Some? then
      && (l in t.lots ==> t.lots[l].acquiredAt == row.date && t.lots[l].amountSat == row.amountSat)
      && (forall k :: k in t.imports && k != key && Yields(t, k, l) ==>
            l in t.lots && t.lots[l].priceUSD == lot.value.priceUSD)
    else l in t.lots ==> exists k :: k != key && Yields(t, k, l)
  }

  lemma LotOfRow(source: Source, row: Row)
    requires LotOf(source, row).Some?
    ensures LotOf(source, row).value.acquiredAt == row.date && LotOf(source, row).value.amountSat == row.amountSat
  {
  }

  /** Importing one row keeps the lots an index of the imports exactly when the row agrees. */
  lemma RowKeepsIndex(t: Tables, source: Source, row: Row)
    requires IsIndex(t)
    ensures IsIndex(ImportRow(t, source, row)) <==> Agrees(t, source, row)
  {
    if !IsDuplicate(t, source, row) {
      if Agrees(t, source, row) {
        AgreeingRowKeepsIndex(t, source, row);
      }
      if IsIndex(ImportRow(t, source, row)) {
        IndexNeedsAgreement(t, source, row);
      }
    }
  }

  lemma AgreeingRowHasLot(t: Tables, source: Source, row: Row, k: ImportKey)
    requires IsIndex(t) && !IsDuplicate(t, source, row) && Agrees(t, source, row)
    requires var t' := ImportRow(t, source, row); k in t'.imports && LotOf(k.source, t'.imports[k]).Some?
    ensures var t' := ImportRow(t, source, row);
      LotKey(k.source, k.externalID) in t'.lots
      && t'.lots[LotKey(k.source, k.externalID)] == LotOf(k.source, t'.imports[k]).value
  {
    if k == KeyOf(source, row) {
      LotOfRow(source, row);
    } else {
      assert Yields(t, k, LotKey(k.source, k.externalID));
    }
  }

  lemma AgreeingRowBacksLot(t: Tables, source: Source, row: Row, m: LotKey)
    requires IsIndex(t) && !IsDuplicate(t, source, row) && Agrees(t, source, row)
    requires m in ImportRow(t, source, row).lots
    ensures var t' := ImportRow(t, source, row); exists k :: k in t'.imports && Yields(t', k, m)
  {
    var key, l := KeyOf(source, row), LotKey(source, row.externalID);
    var t' := ImportRow(t, source, row);
    if m == l && LotOf(source, row).Some? {
      assert Yields(t', key, l);
    } else {
      assert m in t.lots;
      var k :| k in t.imports && Yields(t, k, m);
      if k == key {
        var k2 :| k2 != key && Yields(t, k2, l);
        assert Yields(t', k2, m);
      } else {
        assert Yields(t', k, m);
      }
    }
  }

  lemma AgreeingRowKeepsIndex(t: Tables, source: Source, row: Row)
    requires IsIndex(t) && !IsDuplicate(t, source, row) && Agrees(t, source, row)
    ensures IsIndex(ImportRow(t, source, row))
  {
    var t' := ImportRow(t, source, row);
    forall k | k in t'.imports && LotOf(k.source, t'.imports[k]).Some?
      ensures LotKey(k.source, k.externalID) in t'.lots
        && t'.lots[LotKey(k.source, k.externalID)] == LotOf(k.source, t'.imports[k]).value
    {
      AgreeingRowHasLot(t, source, row, k);
    }
    forall m | m in t'.lots
      ensures exists k :: k in t'.imports && Yields(t', k, m)
    {
      AgreeingRowBacksLot(t, source, row, m);
    }
  }

  lemma IndexNeedsSamePrice(t: Tables, source: Source, row: Row, k: ImportKey)
    requires IsIndex(t) && !IsDuplicate(t, source, row) && IsIndex(ImportRow(t, source, row))
    requires LotOf(source, row).Some? && k in t.imports && k != KeyOf(source, row)
    requires Yields(t, k, LotKey(source, row.externalID))
    ensures var l := LotKey(source, row.externalID);
      l in t.lots && t.lots[l].priceUSD == LotOf(source, row).value.priceUSD
  {
    var l, t' := LotKey(source, row.externalID), ImportRow(t, source, row);
    assert t'.lots[l] == LotOf(source, row).value;
    assert k in t'.imports && t'.imports[k] == t.imports[k];
  }

  lemma IndexNeedsAgreement(t: Tables, source: Source, row: Row)
    requires IsIndex(t) && !IsDuplicate(t, source, row) && IsIndex(ImportRow(t, source, row))
    ensures Agrees(t, source, row)
  {
    var key, l := KeyOf(source, row), LotKey(source, row.externalID);
    var t' := ImportRow(t, source, row);
    if LotOf(source, row).Some? {
      LotOfRow(source, row);
      assert t'.imports[key] == row;
      assert t'.lots[l] == LotOf(source, row).value;
      forall k | k in t.imports && k != key && Yields(t, k, l)
        ensures l in t.lots && t.lots[l].priceUSD == LotOf(source, row).value.priceUSD
      {
        IndexNeedsSamePrice(t, source, row, k);
      }
    } else if l in t.lots {
      var k :| k in t'.imports && Yields(t', k, l);
      assert k != key && Yields(t, k, l);
    }
  }

  // ----- what re-exports may change -----

  /** What the re-exports of a row keep when it stands for a lot; its price is free. */
  datatype Stamp = Stamp(date: int, amountSat: int)

  /** For each import key, the stamp of its rows that stand for a lot, or None if none ever does. */
  type Shape = map<ImportKey, Option<Stamp>>

  function LotKeyOf(k: ImportKey): LotKey {
    LotKey(k.source, k.externalID)
  }

  /** Each external id of a source has at most one key whose rows stand for a lot. */
  ghost predicate IsShape(u: Shape) {
    forall j, k :: j in u && k in u && u[j].Some? && u[k].Some? && LotKeyOf(j) == LotKeyOf(k) ==> j == k
  }

  predicate Fits(u: Shape, source: Source, row: Row) {
    var key := KeyOf(source, row);
    key in u && (LotOf(source, row).Some? ==> u[key] == Some(Stamp(row.date, row.amountSat)))
  }

  /** The row takes the price, and with it the lot, from the row kept under its key. */
  predicate Drops(t: Tables, source: Source, row: Row) {
    var key := KeyOf(source, row);
    key in t.imports && LotOf(source, t.imports[key]).Some? && LotOf(source, row).None?
  }

  /** Lot l was made by rows of key k, the only ones that can. */
  predicate Backs(t: Tables, u: Shape, k: ImportKey, l: LotKey)
    requires l in t.lots
  {
    && k in t.imports && k in u && LotKeyOf(k) == l
    && u[k] == Some(Stamp(t.lots[l].acquiredAt, t.lots[l].amountSat))
  }

  /** What every run keeps, whatever prices do: lots of kept rows are right, and every lot has its key. */
  ghost predicate Tracks(t: Tables, u: Shape) {
    && (forall k :: k in t.imports ==> KeyOf(k.source, t.imports[k]) == k && Fits(u, k.source, t.imports[k]))
    && (forall k :: k in t.imports && LotOf(k.source, t.imports[k]).Some? ==>
          LotKeyOf(k) in t.lots && t.lots[LotKeyOf(k)] == LotOf(k.source, t.imports[k]).value)
    && (forall l :: l in t.lots ==> exists k :: Backs(t, u, k, l))
  }

  /** No kept row has lost the price that made its lot. */
  ghost predicate NothingLost(t: Tables, u: Shape) {
    forall k :: k in t.imports && k in u && u[k].Some? && LotKeyOf(k) in t.lots ==>
      LotOf(k.source, t.imports[k]).Some?
  }

  /** Among tables that track, the lots are an index of the imports exactly when no kept row lost its price. */
  lemma IndexIffNothingLost(t: Tables, u: Shape)
    requires IsShape(u) && Tracks(t, u)
    ensures IsIndex(t) <==> NothingLost(t, u)
  {
    if NothingLost(t, u) {
      forall l | l in t.lots
        ensures exists k :: k in t.imports && Yields(t, k, l)
      {
        var k :| Backs(t, u, k, l);
        assert Yields(t, k, l);
      }
    }
    if IsIndex(t) {
      forall k | k in t.imports && k in u && u[k].Some? && LotKeyOf(k) in t.lots
        ensures LotOf(k.source, t.imports[k]).Some?
      {
        var k2 :| k2 in t.imports && Yields(t, k2, LotKeyOf(k));
        assert Fits(u, k2.source, t.imports[k2]);
        assert k2 == k;
      }
    }
  }

  lemma RowBacksLots(t: Tables, u: Shape, source: Source, row: Row, l: LotKey)
    requires IsShape(u) && Tracks(t, u) && Fits(u, source, row) && !IsDuplicate(t, source, row)
    requires l in ImportRow(t, source, row).lots
    ensures exists k :: Backs(ImportRow(t, source, row), u, k, l)
  {
    var t' := ImportRow(t, source, row);
    if l in t.lots {
      var k :| Backs(t, u, k, l);
      assert Backs(t', u, k, l);
    } else {
      assert Backs(t', u, KeyOf(source, row), l);
    }
  }

  lemma RowHasLot(t: Tables, u: Shape, source: Source, row: Row, k: ImportKey)
    requires IsShape(u) && Tracks(t, u) && Fits(u, source, row) && !IsDuplicate(t, source, row)
    requires k in ImportRow(t, source, row).imports
    requires LotOf(k.source, ImportRow(t, source, row).imports[k]).Some?
    ensures var t' := ImportRow(t, source, row);
      LotKeyOf(k) in t'.lots && t'.lots[LotKeyOf(k)] == LotOf(k.source, t'.imports[k]).value
  {
    var key, l := KeyOf(source, row), LotKey(source, row.externalID);
    if k == key {
      LotOfRow(source, row);
      if l in t.lots {
        var k2 :| Backs(t, u, k2, l);
        assert k2 == key;
      }
    } else if LotKeyOf(k) == l && LotOf(source, row).Some? {
      assert false;
    }
  }

  lemma RowTracks(t: Tables, u: Shape, source: Source, row: Row)
    requires IsShape(u) && Tracks(t, u) && Fits(u, source, row)
    ensures Tracks(ImportRow(t, source, row), u)
  {
    var t' := ImportRow(t, source, row);
    if !IsDuplicate(t, source, row) {
      forall k | k in t'.imports && LotOf(k.source, t'.imports[k]).Some?
        ensures LotKeyOf(k) in t'.lots && t'.lots[LotKeyOf(k)] == LotOf(k.source, t'.imports[k]).value
      {
        RowHasLot(t, u, source, row, k);
      }
      forall l | l in t'.lots
        ensures exists k :: Backs(t', u, k, l)
      {
        RowBacksLots(t, u, source, row, l);
      }
    }
  }

  /** A row that keeps its date and amount, at any price, breaks the index exactly when it drops a price. */
  lemma IndexBrokenExactlyByDrop(t: Tables, u: Shape, source: Source, row: Row)
    requires IsShape(u) && Tracks(t, u) && Fits(u, source, row) && IsIndex(t)
    ensures IsIndex(ImportRow(t, source, row)) <==> !Drops(t, source, row)
  {
    var t', key := ImportRow(t, source, row), KeyOf(source, row);
    RowTracks(t, u, source, row);
    IndexIffNothingLost(t, u);
    IndexIffNothingLost(t', u);
    if Drops(t, source, row) {
      assert Fits(u, source, t.imports[key]);
      assert LotOf(source, t'.imports[key]).None? && LotKeyOf(key) in t'.lots;
    } else {
      DropFreeRowLosesNothing(t, u, source, row);
    }
  }

  lemma DropFreeRowLosesNothing(t: Tables, u: Shape, source: Source, row: Row)
    requires IsShape(u) && Tracks(t, u) && Fits(u, source, row)
    requires NothingLost(t, u) && !Drops(t, source, row)
    ensures NothingLost(ImportRow(t, source, row), u)
  {
    var t', key := ImportRow(t, source, row), KeyOf(source, row);
    forall k | k in t'.imports && k in u && u[k].Some? && LotKeyOf(k) in t'.lots
      ensures LotOf(k.source, t'.imports[k]).Some?
    {
      if k == key && LotOf(source, row).None? {
        assert false;
      } else if k != key {
        OtherKeyKeepsLot(t, u, source, row, k);
      }
    }
  }

  /** A row gives no lot to another key that can have one. */
  lemma OtherKeyKeepsLot(t: Tables, u: Shape, source: Source, row: Row, k: ImportKey)
    requires IsShape(u) && Tracks(t, u) && Fits(u, source, row)
    requires k != KeyOf(source, row) && k in u && u[k].Some?
    ensures LotKeyOf(k) in ImportRow(t, source, row).lots <==> LotKeyOf(k) in t.lots
  {
  }

  // ----- runs of imports and clears, over all sources -----

  datatype Action = ImportBatch(source: Source, rows: seq<Row>, fails: bool) | ClearSource(source: Source)

  function Next(t: Tables, a: Action): Tables {
    match a
    case ImportBatch(source, rows, fails) => if fails then t else ImportRows(t, source, rows)
    case ClearSource(source) => Cleared(t, source)
  }

  ghost predicate Allowed(u: Shape, a: Action) {
    a.ImportBatch? ==> AllFit(u, a.source, a.rows)
  }

  ghost predicate IsRun(u: Shape, states: seq<Tables>, actions: seq<Action>) {
    && IsShape(u) && |states| == |actions| + 1 && states[0] == Tables(map[], map[])
    && forall n :: 0 <= n < |actions| ==> Allowed(u, actions[n]) && states[n + 1] == Next(states[n], actions[n])
  }

  /** No row of the batch drops the price of the row it replaces. */
  ghost predicate KeepsPrices(t: Tables, source: Source, rows: seq<Row>) {
    forall i :: 0 <= i < |rows| ==> !Drops(ImportRows(t, source, rows[..i]), source, rows[i])
  }

  ghost predicate AllFit(u: Shape, source: Source, rows: seq<Row>) {
    forall i :: 0 <= i < |rows| ==> Fits(u, source, rows[i])
  }

  lemma KeepsPricesSnoc(t: Tables, source: Source, rows: seq<Row>)
    requires rows != [] && KeepsPrices(t, source, rows)
    ensures KeepsPrices(t, source, rows[..|rows| - 1])
    ensures !Drops(ImportRows(t, source, rows[..|rows| - 1]), source, rows[|rows| - 1])
  {
    var n := |rows| - 1;
    forall i | 0 <= i < n
      ensures !Drops(ImportRows(t, source, rows[..n][..i]), source, rows[..n][i])
    {
      assert rows[..n][..i] == rows[..i];
    }
  }

  lemma {:induction false} BatchTracks(t: Tables, u: Shape, source: Source, rows: seq<Row>)
    requires IsShape(u) && Tracks(t, u) && AllFit(u, source, rows)
    ensures Tracks(ImportRows(t, source, rows), u)
  {
    if rows != [] {
      var n := |rows| - 1;
      BatchTracks(t, u, source, rows[..n]);
      RowTracks(ImportRows(t, source, rows[..n]), u, source, rows[n]);
    }
  }

  lemma {:induction false} BatchLosesNothing(t: Tables, u: Shape, source: Source, rows: seq<Row>)
    requires IsShape(u) && Tracks(t, u) && AllFit(u, source, rows)
    requires NothingLost(t, u) && KeepsPrices(t, source, rows)
    ensures NothingLost(ImportRows(t, source, rows), u)
  {
    if rows != [] {
      var n := |rows| - 1;
      KeepsPricesSnoc(t, source, rows);
      BatchTracks(t, u, source, rows[..n]);
      BatchLosesNothing(t, u, source, rows[..n]);
      DropFreeRowLosesNothing(ImportRows(t, source, rows[..n]), u, source, rows[n]);
    }
  }

  lemma ClearTracks(t: Tables, u: Shape, source: Source)
    requires Tracks(t, u)
    ensures Tracks(Cleared(t, source), u)
    ensures NothingLost(t, u) ==> NothingLost(Cleared(t, source), u)
  {
    var t' := Cleared(t, source);
    forall l | l in t'.lots
      ensures exists k :: Backs(t', u, k, l)
    {
      var k :| Backs(t, u, k, l);
      assert Backs(t', u, k, l);
    }
  }

  /** Clearing any source keeps the lots of the others an index. */
  lemma ClearKeepsIndex(t: Tables, source: Source)
    requires IsIndex(t)
    ensures IsIndex(Cleared(t, source))
  {
    var t' := Cleared(t, source);
    forall l | l in t'.lots
      ensures exists k :: k in t'.imports && Yields(t', k, l)
    {
      var k :| k in t.imports && Yields(t, k, l);
      assert Yields(t', k, l);
    }
  }

  ghost predicate NeverDrops(t: Tables, a: Action) {
    a.ImportBatch? && !a.fails ==> KeepsPrices(t, a.source, a.rows)
  }

  lemma StepTracks(t: Tables, u: Shape, a: Action)
    requires IsShape(u) && Tracks(t, u) && Allowed(u, a)
    ensures Tracks(Next(t, a), u)
    ensures NothingLost(t, u) && NeverDrops(t, a) ==> NothingLost(Next(t, a), u)
  {
    match a {
      case ImportBatch(source, rows, fails) =>
        BatchTracks(t, u, source, rows);
        if NothingLost(t, u) && KeepsPrices(t, source, rows) {
          BatchLosesNothing(t, u, source, rows);
        }
      case ClearSource(source) => ClearTracks(t, u, source);
    }
  }

  lemma EmptyTracks(u: Shape)
    ensures Tracks(Tables(map[], map[]), u) && NothingLost(Tables(map[], map[]), u)
  {
  }

  lemma RunStep(u: Shape, states: seq<Tables>, actions: seq<Action>, n: nat)
    requires IsRun(u, states, actions) && n < |actions|
    ensures IsShape(u) && Allowed(u, actions[n]) && states[n + 1] == Next(states[n], actions[n])
  {
  }

  /** Over every run of imports and clears, with prices free to change, the tables track. */
  lemma {:induction false} RunTracks(u: Shape, states: seq<Tables>, actions: seq<Action>, n: nat)
    requires IsRun(u, states, actions) && n < |states|
    ensures Tracks(states[n], u)
  {
    if n == 0 {
      EmptyTracks(u);
    } else {
      RunTracks(u, states, actions, n - 1);
      RunStep(u, states, actions, n - 1);
      StepTracks(states[n - 1], u, actions[n - 1]);
    }
  }

  ghost predicate NoDrops(states: seq<Tables>, actions: seq<Action>, n: nat) {
    forall m :: 0 <= m < n && m < |states| && m < |actions| ==> NeverDrops(states[m], actions[m])
  }

  lemma {:induction false} RunLosesNothing(u: Shape, states: seq<Tables>, actions: seq<Action>, n: nat)
    requires IsRun(u, states, actions) && n < |states| && NoDrops(states, actions, n)
    ensures NothingLost(states[n], u)
  {
    if n > 0 {
      RunLosesNothing(u, states, actions, n - 1);
      RunTracks(u, states, actions, n - 1);
      assert Allowed(u, actions[n - 1]) && states[n] == Next(states[n - 1], actions[n - 1]);
      assert NeverDrops(states[n - 1], actions[n - 1]);
      StepTracks(states[n - 1], u, actions[n - 1]);
    }
  }

  /**
    Over every run of imports and clears of any sources, whose rows keep date and amount and may
    change their price: the lots are an index of the imports exactly while no kept row has lost
    the price its lot was made with; so always, when no import drops a price to zero.
   */
  lemma LotsIndexImports(u: Shape, states: seq<Tables>, actions: seq<Action>, n: nat)
    requires IsRun(u, states, actions) && n < |states|
    ensures IsIndex(states[n]) <==> NothingLost(states[n], u)
    ensures NoDrops(states, actions, n) ==> IsIndex(states[n])
  {
    RunTracks(u, states, actions, n);
    if NoDrops(states, actions, n) {
      RunLosesNothing(u, states, actions, n);
    }
    IndexIffNothingLost(states[n], u);
  }

  // ----- what a batch leaves -----

  /** The last row of the batch with the key. */
  function Latest(source: Source, rows: seq<Row>, k: ImportKey): Option<Row> {
    if rows == [] then None
    else if KeyOf(source, rows[|rows| - 1]) == k then Some(rows[|rows| - 1])
    else Latest(source, rows[..|rows| - 1], k)
  }

  /** After any import into any tables, each key holds its last row of the batch, or what it held. */
  lemma {:induction false} ImportsHoldLatest(t: Tables, source: Source, rows: seq<Row>, k: ImportKey)
    ensures var t', latest := ImportRows(t, source, rows), Latest(source, rows, k);
      if latest.Some? then k in t'.imports && t'.imports[k] == latest.value
      else (k in t'.imports <==> k in t.imports) && (k in t.imports ==> t'.imports[k] == t.imports[k])
  {
    if rows != [] {
      ImportsHoldLatest(t, source, rows[..|rows| - 1], k);
    }
  }

  /** The imports determine the lots that index them. */
  lemma IndexIsUnique(t: Tables, t': Tables)
    requires IsIndex(t) && IsIndex(t') && t.imports == t'.imports
    ensures t == t'
  {
    LotsWithin(t, t');
    LotsWithin(t', t);
    assert t.lots.Keys == t'.lots.Keys;
    forall l | l in t.lots
      ensures t.lots[l] == t'.lots[l]
    {
      var k :| k in t.imports && Yields(t, k, l);
      assert LotKey(k.source, k.externalID) == l;
    }
  }

  lemma LotsWithin(t: Tables, t': Tables)
    requires IsIndex(t) && IsIndex(t') && t.imports == t'.imports
    ensures forall l :: l in t.lots ==> l in t'.lots
  {
    forall l | l in t.lots
      ensures l in t'.lots
    {
      var k :| k in t.imports && Yields(t, k, l);
      assert LotKey(k.source, k.externalID) == l;
    }
  }

  // ----- importing the same rows again -----

  /** No key has two different rows in the batch. */
  ghost predicate OneVersion(source: Source, rows: seq<Row>) {
    forall i, j :: 0 <= i < |rows| && 0 <= j < |rows| && KeyOf(source, rows[i]) == KeyOf(source, rows[j])
      ==> rows[i] == rows[j]
  }

  lemma {:induction false} LatestOf(source: Source, rows: seq<Row>, i: nat)
    requires i < |rows|
    ensures var latest := Latest(source, rows, KeyOf(source, rows[i]));
      && latest.Some? && KeyOf(source, latest.value) == KeyOf(source, rows[i])
      && exists j :: 0 <= j < |rows| && rows[j] == latest.value
  {
    var n := |rows| - 1;
    if KeyOf(source, rows[n]) != KeyOf(source, rows[i]) {
      LatestOf(source, rows[..n], i);
      var j :| 0 <= j < n && Some(rows[..n][j]) == Latest(source, rows[..n], KeyOf(source, rows[i]));
      assert rows[j] == rows[..n][j];
    }
  }

  lemma {:induction false} CountDuplicates(t: Tables, source: Source, rows: seq<Row>, total: nat)
    requires forall i :: 0 <= i < |rows| ==> IsDuplicate(t, source, rows[i])
    ensures ImportRows(t, source, rows) == t
    ensures Counted(t, source, rows, total) == Summary(total, 0, |rows|, 0)
  {
    if rows != [] {
      CountDuplicates(t, source, rows[..|rows| - 1], total);
    }
  }

  /** Only a batch of kept rows is counted as duplicates throughout. */
  lemma {:induction false} CountedAreDuplicates(t: Tables, source: Source, rows: seq<Row>, total: nat)
    ensures Counted(t, source, rows, total).duplicates <= |rows|
    ensures Counted(t, source, rows, total).duplicates == |rows| ==>
      ImportRows(t, source, rows) == t && forall i :: 0 <= i < |rows| ==> IsDuplicate(t, source, rows[i])
  {
    if rows != [] {
      CountedAreDuplicates(t, source, rows[..|rows| - 1], total);
    }
  }

  /**
    Whatever the tables held, importing the same rows again reports only duplicates exactly when
    the batch has one version of each row; then it changes nothing.
   */
  lemma ReimportReportsDuplicates(t: Tables, source: Source, rows: seq<Row>)
    ensures var t' := ImportRows(t, source, rows);
      && (Counted(t', source, rows, |rows|).duplicates == |rows| <==> OneVersion(source, rows))
      && (OneVersion(source, rows) ==>
           && ImportRows(t', source, rows) == t'
           && Counted(t', source, rows, |rows|) == Summary(|rows|, 0, |rows|, 0))
  {
    var t' := ImportRows(t, source, rows);
    CountedAreDuplicates(t', source, rows, |rows|);
    if OneVersion(source, rows) {
      forall i | 0 <= i < |rows|
        ensures IsDuplicate(t', source, rows[i])
      {
        LatestOf(source, rows, i);
        ImportsHoldLatest(t, source, rows, KeyOf(source, rows[i]));
      }
      CountDuplicates(t', source, rows, |rows|);
    }
  }

  // ----- the order of rows and batches -----

  /** The two rows are the same, or touch different keys and no lot in different ways. */
  predicate Commute(source: Source, x: Row, y: Row) {
    || x == y
    || (KeyOf(source, x) != KeyOf(source, y)
        && (x.externalID != y.externalID || LotOf(source, x).None? || LotOf(source, y).None?
            || LotOf(source, x) == LotOf(source, y)))
  }

  lemma RowEffect(t: Tables, source: Source, row: Row)
    ensures ImportRow(t, source, row).imports == t.imports[KeyOf(source, row) := row]
    ensures ImportRow(t, source, row).lots
         == if IsDuplicate(t, source, row) then t.lots else LotsAfter(t.lots, source, row)
  {
  }

  lemma CommutingLots(lots: map<LotKey, Lot>, source: Source, x: Row, y: Row)
    requires x.externalID != y.externalID || LotOf(source, x).None? || LotOf(source, y).None?
      || LotOf(source, x) == LotOf(source, y)
    ensures LotsAfter(LotsAfter(lots, source, x), source, y) == LotsAfter(LotsAfter(lots, source, y), source, x)
  {
  }

  lemma CommutingRows(t: Tables, source: Source, x: Row, y: Row)
    requires Commute(source, x, y)
    ensures ImportRow(ImportRow(t, source, x), source, y) == ImportRow(ImportRow(t, source, y), source, x)
  {
    if x != y {
      var tx, ty := ImportRow(t, source, x), ImportRow(t, source, y);
      RowEffect(t, source, x);
      RowEffect(t, source, y);
      RowEffect(tx, source, y);
      RowEffect(ty, source, x);
      assert IsDuplicate(tx, source, y) <==> IsDuplicate(t, source, y);
      assert IsDuplicate(ty, source, x) <==> IsDuplicate(t, source, x);
      assert ImportRow(tx, source, y).lots == ImportRow(ty, source, x).lots by {
        CommutingLots(t.lots, source, x, y);
      }
      assert ImportRow(tx, source, y).imports == ImportRow(ty, source, x).imports;
    }
  }

  /** The order of two rows is immaterial to all tables exactly when they commute. */
  lemma OrderMattersExactly(source: Source, x: Row, y: Row)
    ensures (forall t :: ImportRow(ImportRow(t, source, x), source, y) == ImportRow(ImportRow(t, source, y), source, x))
       <==> Commute(source, x, y)
  {
    if Commute(source, x, y) {
      forall t
        ensures ImportRow(ImportRow(t, source, x), source, y) == ImportRow(ImportRow(t, source, y), source, x)
      {
        CommutingRows(t, source, x, y);
      }
    } else {
      DifferentOnEmpty(source, x, y);
    }
  }

  lemma DifferentOnEmpty(source: Source, x: Row, y: Row)
    requires !Commute(source, x, y)
    ensures var t := Tables(map[], map[]);
      ImportRow(ImportRow(t, source, x), source, y) != ImportRow(ImportRow(t, source, y), source, x)
  {
    var t := Tables(map[], map[]);
    var l := LotKey(source, x.externalID);
    var xy, yx := ImportRow(ImportRow(t, source, x), source, y), ImportRow(ImportRow(t, source, y), source, x);
    if KeyOf(source, x) == KeyOf(source, y) {
      assert xy.imports[KeyOf(source, x)] == y && yx.imports[KeyOf(source, x)] == x;
    } else {
      assert xy.lots[l] == LotOf(source, x).value.(priceUSD := LotOf(source, y).value.priceUSD);
      assert yx.lots[l] == LotOf(source, y).value.(priceUSD := LotOf(source, x).value.priceUSD);
    }
  }

  ghost predicate OrderFree(source: Source, rows: seq<Row>) {
    forall x, y :: x in rows && y in rows ==> Commute(source, x, y)
  }

  /** A row that commutes with those after it may as well come last. */
  lemma {:induction false} PullToEnd(t: Tables, source: Source, rows: seq<Row>, k: nat)
    requires k < |rows| && OrderFree(source, rows)
    ensures ImportRows(t, source, rows) == ImportRow(ImportRows(t, source, Without(rows, k)), source, rows[k])
  {
    var n := |rows| - 1;
    if k == n {
      assert Without(rows, n) == rows[..n];
    } else {
      var rest := Without(rows[..n], k);
      PullToEnd(t, source, rows[..n], k);
      CommutingRows(ImportRows(t, source, rest), source, rows[k], rows[n]);
      assert Without(rows, k) == rest + [rows[n]];
      assert (rest + [rows[n]])[..|rest|] == rest;
    }
  }

  lemma OrderFreeWithout(source: Source, rows: seq<Row>, k: nat)
    requires k < |rows| && OrderFree(source, rows)
    ensures OrderFree(source, Without(rows, k))
  {
    assert forall x :: x in Without(rows, k) ==> x in rows;
  }

  /** The place of the last row of one order in the other, and what remains of both. */
  lemma PlaceOfLast(rows: seq<Row>, rows': seq<Row>) returns (k: nat)
    requires multiset(rows) == multiset(rows') && rows' != []
    ensures k < |rows| && rows[k] == rows'[|rows'| - 1]
    ensures multiset(Without(rows, k)) == multiset(rows'[..|rows'| - 1])
  {
    var n := |rows'| - 1;
    assert rows'[n] in multiset(rows);
    k :| 0 <= k < |rows| && rows[k] == rows'[n];
    MultisetWithout(rows, k);
    MultisetWithout(rows', n);
    assert Without(rows', n) == rows'[..n];
  }

  /** Rows that commute give the same tables in every order, into any tables. */
  lemma {:induction false} RowOrderDoesNotMatter(t: Tables, source: Source, rows: seq<Row>, rows': seq<Row>)
    requires multiset(rows) == multiset(rows') && OrderFree(source, rows)
    ensures ImportRows(t, source, rows) == ImportRows(t, source, rows')
  {
    if rows' == [] {
      assert |rows| == |multiset(rows)| == 0;
    } else {
      var k := PlaceOfLast(rows, rows');
      PullToEnd(t, source, rows, k);
      OrderFreeWithout(source, rows, k);
      RowOrderDoesNotMatter(t, source, Without(rows, k), rows'[..|rows'| - 1]);
    }
  }

  lemma {:induction false} ImportRowsConcat(t: Tables, source: Source, a: seq<Row>, b: seq<Row>)
    ensures ImportRows(t, source, a + b) == ImportRows(ImportRows(t, source, a), source, b)
  {
    if b == [] {
      assert a + b == a;
    } else {
      var n := |b| - 1;
      assert (a + b)[..|a + b| - 1] == a + b[..n];
      ImportRowsConcat(t, source, a, b[..n]);
    }
  }

  /**
    Overlapping batches that agree give the same tables in either order, whatever older versions
    of their rows the tables already hold.
   */
  lemma BatchOrderDoesNotMatter(t: Tables, source: Source, a: seq<Row>, b: seq<Row>)
    requires OrderFree(source, a + b)
    ensures ImportRows(ImportRows(t, source, a), source, b) == ImportRows(ImportRows(t, source, b), source, a)
  {
    ImportRowsConcat(t, source, a, b);
    ImportRowsConcat(t, source, b, a);
    RowOrderDoesNotMatter(t, source, a + b, b + a);
  }

  /** Batches agree when their rows fit a shape and no row comes in two versions. */
  lemma AgreeingBatchesAreOrderFree(u: Shape, source: Source, rows: seq<Row>)
    requires IsShape(u) && OneVersion(source, rows)
    requires forall i :: 0 <= i < |rows| ==> Fits(u, source, rows[i])
    ensures OrderFree(source, rows)
  {
    forall x, y | x in rows && y in rows
      ensures Commute(source, x, y)
    {
      var i :| 0 <= i < |rows| && rows[i] == x;
      var j :| 0 <= j < |rows| && rows[j] == y;
      assert Fits(u, source, rows[i]) && Fits(u, source, rows[j]);
      if LotOf(source, x).Some? && LotOf(source, y).Some? && x.externalID == y.externalID {
        assert KeyOf(source, x) == KeyOf(source, y);
      }
    }
  }

  // ----- clearing one source -----

  function OnlyOf(t: Tables, source: Source): Tables {
    Tables(map k | k in t.imports && k.source == source :: t.imports[k],
           map k | k in t.lots && k.source == source :: t.lots[k])
  }

  /** An import reads and writes only its own source's rows and lots. */
  lemma {:induction false} ImportIsLocal(t: Tables, source: Source, rows: seq<Row>)
    ensures OnlyOf(ImportRows(t, source, rows), source) == ImportRows(OnlyOf(t, source), source, rows)
    ensures forall other :: other != source ==> OnlyOf(ImportRows(t, source, rows), other) == OnlyOf(t, other)
  {
    if rows != [] {
      var n := |rows| - 1;
      ImportIsLocal(t, source, rows[..n]);
      RowIsLocal(ImportRows(t, source, rows[..n]), source, rows[n]);
    }
  }

  lemma OnlyOfUpdate(t: Tables, source: Source, key: ImportKey, row: Row, lotKey: LotKey, lot: Lot)
    requires key.source == lotKey.source == source
    ensures OnlyOf(t.(imports := t.imports[key := row]), source).imports == OnlyOf(t, source).imports[key := row]
    ensures OnlyOf(t.(lots := t.lots[lotKey := lot]), source).lots == OnlyOf(t, source).lots[lotKey := lot]
  {
  }

  lemma RowIsLocal(t: Tables, source: Source, row: Row)
    ensures OnlyOf(ImportRow(t, source, row), source) == ImportRow(OnlyOf(t, source), source, row)
    ensures forall other :: other != source ==> OnlyOf(ImportRow(t, source, row), other) == OnlyOf(t, other)
  {
    var only := OnlyOf(t, source);
    var key, l := KeyOf(source, row), LotKey(source, row.externalID);
    assert IsDuplicate(only, source, row) <==> IsDuplicate(t, source, row);
    assert l in only.lots <==> l in t.lots;
    if !IsDuplicate(t, source, row) {
      OnlyOfUpdate(t, source, key, row, l, Lot(0, 0, 0.0));
      if LotOf(source, row).Some? {
        var made := LotOf(source, row).value;
        OnlyOfUpdate(t, source, key, row, l, if l in t.lots then t.lots[l].(priceUSD := made.priceUSD) else made);
      }
    }
    forall other | other != source
      ensures OnlyOf(ImportRow(t, source, row), other) == OnlyOf(t, other)
    {
      OthersKept(t, source, row, other);
    }
  }

  lemma OtherImportsKept(t: Tables, other: Source, key: ImportKey, row: Row)
    requires key.source != other
    ensures OnlyOf(t.(imports := t.imports[key := row]), other) == OnlyOf(t, other)
  {
    assert OnlyOf(t.(imports := t.imports[key := row]), other).imports == OnlyOf(t, other).imports;
  }

  lemma OtherLotsKept(t: Tables, other: Source, key: LotKey, lot: Lot)
    requires key.source != other
    ensures OnlyOf(t.(lots := t.lots[key := lot]), other) == OnlyOf(t, other)
  {
    assert OnlyOf(t.(lots := t.lots[key := lot]), other).lots == OnlyOf(t, other).lots;
  }

  lemma OthersKept(t: Tables, source: Source, row: Row, other: Source)
    requires other != source
    ensures OnlyOf(ImportRow(t, source, row), other) == OnlyOf(t, other)
  {
    var l := LotKey(source, row.externalID);
    var t1 := t.(imports := t.imports[KeyOf(source, row) := row]);
    OtherImportsKept(t, other, KeyOf(source, row), row);
    if LotOf(source, row).Some? {
      var made := LotOf(source, row).value;
      OtherLotsKept(t1, other, l, if l in t.lots then t.lots[l].(priceUSD := made.priceUSD) else made);
    }
  }

  /** Clearing a source and importing again equals a fresh import of it, and leaves the other sources alone. */
  lemma ClearThenReimport(t: Tables, source: Source, rows: seq<Row>)
    ensures var t' := ImportRows(Cleared(t, source), source, rows);
      && OnlyOf(t', source) == ImportRows(Tables(map[], map[]), source, rows)
      && forall other :: other != source ==> OnlyOf(t', other) == OnlyOf(t, other)
  {
    var c := Cleared(t, source);
    ImportIsLocal(c, source, rows);
    assert OnlyOf(c, source).imports == map[] && OnlyOf(c, source).lots == map[];
    forall other | other != source
      ensures OnlyOf(c, other) == OnlyOf(t, other)
    {
      assert OnlyOf(c, other).imports == OnlyOf(t, other).imports;
      assert OnlyOf(c, other).lots == OnlyOf(t, other).lots;
    }
  }

  // ----- which rows make lots, at what price, in plain terms -----

  /** The text is that word in any mixture of cases. */
  predicate Spells(text: string, word: string) {
    |text| == |word| && forall i :: 0 <= i < |word| ==>
      text[i] == word[i] || ('a' <= word[i] <= 'z' && text[i] as int + 32 == word[i] as int)
  }

  /** What each exchange calls a purchase. */
  predicate Buys(source: Source, row: Row) {
    match source
    case Strike => Spells(row.txType, "purchase") || Spells(row.txType, "buy")
    case River => row.txType == "buy"
    case Coinbase => row.txType == "buy"
    case Swan => row.txType == "purchase"
  }

  /** Purchases of a positive amount with a price; at Swan also free ones, deposits, and negative withdrawals. */
  predicate MakesLot(source: Source, row: Row) {
    if source == Swan then
      || (row.txType == "purchase" && row.amountSat > 0)
      || (row.txType == "deposit" && row.amountSat > 0)
      || (row.txType == "withdrawal" && row.amountSat < 0)
    else
      Buys(source, row) && row.amountSat > 0 && (row.costBasisUSD != 0.0 || row.amountUSD != 0.0)
  }

  /** The cost basis, or without one the dollar amount; what only moves at Swan has no price. */
  function LotPrice(source: Source, row: Row): real {
    if source == Swan && row.txType != "purchase" then 0.0
    else if row.costBasisUSD != 0.0 then row.costBasisUSD
    else row.amountUSD
  }

  lemma SpellsIsLower(text: string, word: string)
    requires forall i :: 0 <= i < |word| ==> 'a' <= word[i] <= 'z'
    ensures Lower(text) == word <==> Spells(text, word)
  {
    if Spells(text, word) {
      assert forall i :: 0 <= i < |word| ==> LowerChar(text[i]) == word[i];
    }
    if Lower(text) == word {
      forall i | 0 <= i < |word|
        ensures text[i] == word[i] || text[i] as int + 32 == word[i] as int
      {
        assert Lower(text)[i] == LowerChar(text[i]);
      }
    }
  }

  lemma BuysIsPurchase(source: Source, row: Row)
    ensures IsPurchase(source, row.txType) <==> Buys(source, row)
  {
    SpellsIsLower(row.txType, "purchase");
    SpellsIsLower(row.txType, "buy");
  }

  lemma LotExactly(source: Source, row: Row)
    ensures LotOf(source, row)
         == if MakesLot(source, row) then Some(Lot(row.date, row.amountSat, LotPrice(source, row))) else None
  {
    BuysIsPurchase(source, row);
  }

  /** The row is in the table already, as it is. */
  predicate Kept(t: Tables, source: Source, row: Row) {
    var key := ImportKey(source, row.externalID, row.txType);
    key in t.imports && t.imports[key] == row
  }

  /**
    What importing one row does to the tables and the counters: a row kept already is a duplicate and
    changes nothing; any other is kept under its source, id and type, and, if it makes a lot, makes it
    or reprices the lot its id has.
   */
  lemma RowExactly(t: Tables, source: Source, row: Row)
    ensures var t', s := ImportRows(t, source, [row]), Counted(t, source, [row], 1);
      var l := LotKey(source, row.externalID);
      var price := LotPrice(source, row);
      if Kept(t, source, row) then t' == t && s == Summary(1, 0, 1, 0)
      else
        && t'.imports == t.imports[ImportKey(source, row.externalID, row.txType) := row]
        && t'.lots == (if !MakesLot(source, row) then t.lots
                       else if l in t.lots then t.lots[l := t.lots[l].(priceUSD := price)]
                       else t.lots[l := Lot(row.date, row.amountSat, price)])
        && s == Summary(1, if MakesLot(source, row) && Buys(source, row) && l !in t.lots then 1 else 0, 0,
                        if MakesLot(source, row) && l in t.lots then 1 else 0)
  {
    assert [row][..0] == [];
    BuysIsPurchase(source, row);
    LotExactly(source, row);
  }

  lemma OneMoreKey<K, V>(m: map<K, V>, k: K, v: V)
    ensures |m[k := v].Keys| == |m.Keys| + if k in m then 0 else 1
  {
    assert m[k := v].Keys == m.Keys + {k};
  }

  lemma RowCounts(s: Summary, t: Tables, source: Source, row: Row)
    ensures var added := |ImportRow(t, source, row).lots.Keys| - |t.lots.Keys|;
      && 0 <= Count(s, t, source, row).newPurchases - s.newPurchases <= added
      && (source != Swan ==> Count(s, t, source, row).newPurchases - s.newPurchases == added)
  {
    var lot, l := LotOf(source, row), LotKey(source, row.externalID);
    if lot.Some? {
      OneMoreKey(t.lots, l, lot.value);
      if l in t.lots {
        OneMoreKey(t.lots, l, t.lots[l].(priceUSD := lot.value.priceUSD));
      }
    }
  }

  /** The purchases reported are the lots added, all of them at Strike, River and Coinbase. */
  lemma {:induction false} NewPurchasesAreNewLots(t: Tables, source: Source, rows: seq<Row>, total: nat)
    ensures var added := |ImportRows(t, source, rows).lots.Keys| - |t.lots.Keys|;
      && Counted(t, source, rows, total).newPurchases <= added
      && (source != Swan ==> Counted(t, source, rows, total).newPurchases == added)
  {
    if rows != [] {
      var n := |rows| - 1;
      NewPurchasesAreNewLots(t, source, rows[..n], total);
      RowCounts(Counted(t, source, rows[..n], total), ImportRows(t, source, rows[..n]), source, rows[n]);
    }
  }

  /** A row of the batch makes lot l. */
  ghost predicate SomeRowMakes(source: Source, rows: seq<Row>, l: LotKey) {
    exists i :: 0 <= i < |rows| && MakesLot(source, rows[i]) && LotKey(source, rows[i].externalID) == l
  }

  /** No lot is lost by an import, and none appears that no row makes. */
  lemma {:induction false} OnlyRowsMakeLots(t: Tables, source: Source, rows: seq<Row>, l: LotKey)
    ensures l in t.lots ==> l in ImportRows(t, source, rows).lots
    ensures l in ImportRows(t, source, rows).lots ==> l in t.lots || SomeRowMakes(source, rows, l)
  {
    if rows != [] {
      var n := |rows| - 1;
      OnlyRowsMakeLots(t, source, rows[..n], l);
      LotExactly(source, rows[n]);
      if SomeRowMakes(source, rows[..n], l) {
        var i :| 0 <= i < n && MakesLot(source, rows[..n][i]) && LotKey(source, rows[..n][i].externalID) == l;
        assert rows[i] == rows[..n][i];
      }
    }
  }

  /** Every row of the batch that makes a lot, and was not kept before, has it afterwards. */
  lemma {:induction false} RowsGetTheirLots(t: Tables, source: Source, rows: seq<Row>, i: nat)
    requires i < |rows| && MakesLot(source, rows[i]) && !Kept(t, source, rows[i])
    ensures LotKey(source, rows[i].externalID) in ImportRows(t, source, rows).lots
    decreases |rows|
  {
    var n := |rows| - 1;
    var before := ImportRows(t, source, rows[..n]);
    if i < n {
      RowsGetTheirLots(t, source, rows[..n], i);
    } else {
      LotExactly(source, rows[n]);
      if Kept(before, source, rows[n]) {
        var j := KeptByBatch(t, source, rows[..n], rows[n]);
        RowsGetTheirLots(t, source, rows[..n], j);
      }
    }
  }

  lemma {:induction false} KeptByBatch(t: Tables, source: Source, rows: seq<Row>, row: Row) returns (j: nat)
    requires !Kept(t, source, row) && Kept(ImportRows(t, source, rows), source, row)
    ensures j < |rows| && rows[j] == row
  {
    var n := |rows| - 1;
    if rows[n] == row {
      j := n;
    } else {
      j := KeptByBatch(t, source, rows[..n], row);
    }
  }

  /** Into empty tables: the lots are exactly those of the rows that make one. */
  lemma FreshImportExactly(source: Source, rows: seq<Row>, l: LotKey)
    ensures l in ImportRows(Tables(map[], map[]), source, rows).lots <==> SomeRowMakes(source, rows, l)
  {
    var t := Tables(map[], map[]);
    OnlyRowsMakeLots(t, source, rows, l);
    if SomeRowMakes(source, rows, l) {
      var i :| 0 <= i < |rows| && MakesLot(source, rows[i]) && LotKey(source, rows[i].externalID) == l;
      RowsGetTheirLots(t, source, rows, i);
    }
  }
}
