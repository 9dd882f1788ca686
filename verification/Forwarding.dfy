/**
  Ingesting Lightning forwarding events (internal/syncer/syncer.go, internal/db/store.go,
  internal/lnd/client.go): overlapping windows, a unique index, a cursor, and a transaction
  that rolls back on any error. Clock readings are nanoseconds; event times are whole seconds.
 */
module Forwarding {
  import opened Options
  import opened Sums

  const SECOND: int := 1_000_000_000
  const PAGE_SIZE: nat := 1000

  function Sec(t: int): int {
    t / SECOND
  }

  datatype Fwd = Fwd(timestamp: int, chanIn: int, chanOut: int, amtIn: int, amtOut: int, fee: int)

  datatype Key = Key(timestamp: int, chanIn: int, chanOut: int, amtOut: int)

  /** The unique index on forwarding_events. */
  function KeyOf(e: Fwd): Key {
    Key(e.timestamp, e.chanIn, e.chanOut, e.amtOut)
  }

  // ----- the node's log, read page by page -----

  /** Events dated lo or later, and before hi (or at hi, if the node counts the end in). */
  function Window(log: seq<Fwd>, lo: int, hi: int, endIncluded: bool): seq<Fwd> {
    if log == [] then []
    else
      var rest := Window(log[..|log| - 1], lo, hi, endIncluded);
      var e := log[|log| - 1];
      if lo <= e.timestamp && (e.timestamp < hi || (endIncluded && e.timestamp == hi)) then rest + [e] else rest
  }

  lemma {:induction false} WindowGrows(log: seq<Fwd>, a: nat, b: nat, lo: int, hi: int, endIncluded: bool)
    requires a <= b <= |log|
    ensures Window(log[..a], lo, hi, endIncluded) <= Window(log[..b], lo, hi, endIncluded)
    ensures |Window(log[..b], lo, hi, endIncluded)| <= b
    decreases b
  {
    if b > 0 {
      assert log[..b][..b - 1] == log[..b - 1];
      WindowGrows(log, if a == b then b - 1 else a, b - 1, lo, hi, endIncluded);
    }
  }

  /**
    Pages of the window until one is short. The log may grow between calls: call k sees the
    first seen(k) entries. The result is the whole window as of some call.
   */
  method ForwardingHistory(log: seq<Fwd>, seen: nat -> nat, start: int, end: int, endIncluded: bool)
    returns (events: seq<Fwd>, calls: nat)
    requires forall k :: seen(k) <= |log|
    requires forall j, k :: j <= k ==> seen(j) <= seen(k)
    ensures events == Window(log[..seen(calls)], Sec(start), Sec(end), endIncluded)
  {
    var indexOffset := 0;
    calls := 0;
    events := [];
    while true
      invariant indexOffset == |events| <= |Window(log[..seen(calls)], Sec(start), Sec(end), endIncluded)|
      invariant events == Window(log[..seen(calls)], Sec(start), Sec(end), endIncluded)[..indexOffset]
      invariant indexOffset <= |log|
      decreases |log| - indexOffset
    {
      var window := Window(log[..seen(calls)], Sec(start), Sec(end), endIncluded);
      var page := window[indexOffset..Min(indexOffset + PAGE_SIZE, |window|)];
      events := events + page;
      WindowGrows(log, seen(calls), seen(calls), Sec(start), Sec(end), endIncluded);
      if |page| < PAGE_SIZE {
        assert events == window;
        break;
      }
      indexOffset := indexOffset + |page|;
      WindowGrows(log, seen(calls), seen(calls + 1), Sec(start), Sec(end), endIncluded);
      calls := calls + 1;
    }
  }

  // ----- the table -----

  ghost predicate HasKey(rows: seq<Fwd>, k: Key) {
    exists i :: 0 <= i < |rows| && KeyOf(rows[i]) == k
  }

  /** INSERT OR IGNORE, one event at a time. */
  function Inserted(rows: seq<Fwd>, events: seq<Fwd>): seq<Fwd> {
    if events == [] then rows
    else
      var before := Inserted(rows, events[..|events| - 1]);
      var e := events[|events| - 1];
      if exists i :: 0 <= i < |before| && KeyOf(before[i]) == KeyOf(e) then before else before + [e]
  }

  datatype Tables = Tables(rows: seq<Fwd>, cursor: Option<int>)

  /** Where the window of a cycle begins: at the cursor, or at the start of history before the first cycle. */
  function StartOf(t: Tables, historyStart: int): int {
    if t.cursor.Some? then t.cursor.value else historyStart
  }

  /** What a committed cycle at clock reading `end` makes of the tables, having read `log`. */
  function Cycled(t: Tables, log: seq<Fwd>, historyStart: int, end: int, endIncluded: bool): Tables {
    Tables(Inserted(t.rows, Window(log, Sec(StartOf(t, historyStart)), Sec(end), endIncluded)), Some(end))
  }

  /** A transaction: it works on its own view, which Commit writes back. */
  class SyncTx {
    var view: Tables

    constructor (t: Tables)
      ensures view == t
    {
      view := t;
    }

    method InsertForwardingEvents(events: seq<Fwd>)
      modifies this
      ensures view == old(view).(rows := Inserted(old(view).rows, events))
    {
      ghost var was := view;
      for k := 0 to |events|
        invariant view == was.(rows := Inserted(was.rows, events[..k]))
      {
        assert events[..k + 1][..k] == events[..k];
        var rows := view.rows;
        if !(exists i :: 0 <= i < |rows| && KeyOf(rows[i]) == KeyOf(events[k])) {
          view := view.(rows := rows + [events[k]]);
        }
      }
      assert events[..|events|] == events;
    }

    method SetSyncState(at: int)
      modifies this
      ensures view == old(view).(cursor := Some(at))
    {
      view := view.(cursor := Some(at));
    }
  }

  /** Where a cycle can fail: asking the node, later in the cycle, or at commit. */
  datatype Failure = NoFailure | NodeFails | LaterFails

  class Database {
    var tables: Tables

    constructor ()
      ensures tables == Tables([], None)
    {
      tables := Tables([], None);
    }

    /** One cycle at clock reading `end`; `historyStart` is where a first sync begins. */
    method Sync(log: seq<Fwd>, seen: nat -> nat, endIncluded: bool, historyStart: int, end: int, failure: Failure)
      returns (ok: bool, calls: nat)
      requires forall k :: seen(k) <= |log|
      requires forall j, k :: j <= k ==> seen(j) <= seen(k)
      modifies this
      ensures ok <==> failure == NoFailure
      ensures tables
           == if ok then Cycled(old(tables), log[..seen(calls)], historyStart, end, endIncluded) else old(tables)
    {
      var tx := new SyncTx(tables);
      var start := historyStart;
      if tx.view.cursor.Some? {
        start := tx.view.cursor.value;
      }
      calls := 0;
      if failure == NodeFails {
        return false, calls;
      }
      var events;
      events, calls := ForwardingHistory(log, seen, start, end, endIncluded);
      tx.InsertForwardingEvents(events);
      tx.SetSyncState(end);
      if failure == LaterFails {
        return false, calls;
      }
      tables := tx.view;
      ok := true;
    }
  }

  // ----- runs -----

  /**
    The clock, the node's log, the committed tables, and the second at which the first committed
    window began.
   */
  datatype World = World(now: int, log: seq<Fwd>, tables: Tables, first: Option<int>)

  /**
    Time passes; the node logs an event; a cycle that began now commits, having read the first
    `read` entries of a log that grew by `later` meanwhile; a cycle aborts.
   */
  datatype Action =
    | Tick(to: int)
    | NodeLogs(e: Fwd)
    | Commit(historyStart: int, later: seq<Fwd>, read: nat, endIncluded: bool)
    | Abort

  /** The clock does not run back, and a read misses nothing that was logged before it began. */
  ghost predicate Allowed(w: World, a: Action) {
    match a
    case Tick(to) => to >= w.now
    case NodeLogs(_) => true
    case Commit(_, later, read, _) => |w.log| <= read <= |w.log + later|
    case Abort => true
  }

  /** Nothing is logged with a date before the end of a window that was already read. */
  ghost predicate Timely(w: World, a: Action) {
    match a
    case Tick(_) => true
    case NodeLogs(e) => w.tables.cursor.Some? ==> e.timestamp >= Sec(w.tables.cursor.value)
    case Commit(_, later, _, _) => forall e :: e in later ==> e.timestamp >= Sec(w.now)
    case Abort => true
  }

  function Next(w: World, a: Action): World
    requires Allowed(w, a)
  {
    match a
    case Tick(to) => w.(now := to)
    case NodeLogs(e) => w.(log := w.log + [e])
    case Commit(historyStart, later, read, endIncluded) =>
      World(w.now, w.log + later, Cycled(w.tables, (w.log + later)[..read], historyStart, w.now, endIncluded),
            if w.first.Some? then w.first else Some(Sec(historyStart)))
    case Abort => w
  }

  ghost predicate IsRun(states: seq<World>, actions: seq<Action>) {
    && |states| == |actions| + 1
    && states[0].log == [] && states[0].tables == Tables([], None) && states[0].first == None
    && forall n :: 0 <= n < |actions| ==> Allowed(states[n], actions[n]) && states[n + 1] == Next(states[n], actions[n])
  }

  ghost predicate AllTimely(states: seq<World>, actions: seq<Action>)
    requires |states| == |actions| + 1
  {
    forall n :: 0 <= n < |actions| ==> Timely(states[n], actions[n])
  }

  /** What a read that began now must return: all the window held at its start, and nothing but logged events. */
  ghost predicate Reads(w: World, historyStart: int, later: seq<Fwd>, events: seq<Fwd>) {
    && (forall e :: e in events ==> e in w.log + later)
    && (forall e :: e in w.log && Sec(StartOf(w.tables, historyStart)) <= e.timestamp < Sec(w.now) ==> e in events)
  }

  /** What the paged read returns is such a read, whatever the node does with the window's end. */
  lemma PagedReadIsRead(w: World, later: seq<Fwd>, historyStart: int, read: nat, endIncluded: bool)
    requires |w.log| <= read <= |w.log + later|
    ensures Reads(w, historyStart, later,
      Window((w.log + later)[..read], Sec(StartOf(w.tables, historyStart)), Sec(w.now), endIncluded))
  {
    var start := Sec(StartOf(w.tables, historyStart));
    var log := (w.log + later)[..read];
    forall e
      ensures e in Window(log, start, Sec(w.now), endIncluded) ==> e in w.log + later
      ensures e in w.log && start <= e.timestamp < Sec(w.now) ==> e in Window(log, start, Sec(w.now), endIncluded)
    {
      WindowMembers(log, start, Sec(w.now), endIncluded, e);
      if e in w.log {
        var i :| 0 <= i < |w.log| && w.log[i] == e;
        assert log[i] == e;
      }
    }
  }

  lemma {:induction false} WindowMembers(log: seq<Fwd>, lo: int, hi: int, endIncluded: bool, e: Fwd)
    ensures e in Window(log, lo, hi, endIncluded)
       <==> e in log && lo <= e.timestamp && (e.timestamp < hi || (endIncluded && e.timestamp == hi))
  {
    if log != [] {
      var n := |log| - 1;
      assert log == log[..n] + [log[n]];
      WindowMembers(log[..n], lo, hi, endIncluded, e);
    }
  }

  ghost predicate DistinctKeys(s: seq<Fwd>) {
    forall i, j :: 0 <= i < j < |s| ==> KeyOf(s[i]) != KeyOf(s[j])
  }

  lemma {:induction false} InsertedFacts(rows: seq<Fwd>, events: seq<Fwd>)
    requires DistinctKeys(rows)
    ensures var r := Inserted(rows, events);
      && DistinctKeys(r) && rows <= r
      && (forall e :: e in r ==> e in rows || e in events)
      && (forall e :: e in events ==> HasKey(r, KeyOf(e)))
  {
    if events != [] {
      var n := |events| - 1;
      var before, after := Inserted(rows, events[..n]), Inserted(rows, events);
      InsertedFacts(rows, events[..n]);
      assert events == events[..n] + [events[n]];
      forall e | e in events
        ensures HasKey(after, KeyOf(e))
      {
        if e in events[..n] {
          var i :| 0 <= i < |before| && KeyOf(before[i]) == KeyOf(e);
          assert KeyOf(after[i]) == KeyOf(e);
        } else {
          assert e == events[n];
          assert after != before ==> KeyOf(after[|before|]) == KeyOf(e);
        }
      }
    }
  }

  /**
    The table holds only logged events, no key twice, and every event dated from the first window to
    the cursor's second.
   */
  ghost predicate Consistent(w: World) {
    && DistinctKeys(w.tables.rows)
    && (forall e :: e in w.tables.rows ==> e in w.log)
    && (w.tables.cursor.None? <==> w.first.None?)
    && (w.tables.cursor.Some? ==>
         && w.tables.cursor.value <= w.now
         && forall e :: e in w.log && w.first.value <= e.timestamp < Sec(w.tables.cursor.value) ==>
              HasKey(w.tables.rows, KeyOf(e)))
  }

  lemma SecMonotone(a: int, b: int)
    requires a <= b
    ensures Sec(a) <= Sec(b)
  {
  }

  lemma HasKeyGrows(rows: seq<Fwd>, more: seq<Fwd>, k: Key)
    requires HasKey(rows, k) && rows <= more
    ensures HasKey(more, k)
  {
    var i :| 0 <= i < |rows| && KeyOf(rows[i]) == k;
    assert KeyOf(more[i]) == k;
  }

  lemma CommitKeepsConsistent(w: World, a: Action)
    requires a.Commit? && Consistent(w) && Allowed(w, a) && Timely(w, a)
    ensures Consistent(Next(w, a))
  {
    var w' := Next(w, a);
    var start := StartOf(w.tables, a.historyStart);
    var events := Window((w.log + a.later)[..a.read], Sec(start), Sec(w.now), a.endIncluded);
    PagedReadIsRead(w, a.later, a.historyStart, a.read, a.endIncluded);
    InsertedFacts(w.tables.rows, events);
    forall e | e in w'.log && w'.first.value <= e.timestamp < Sec(w.now)
      ensures HasKey(w'.tables.rows, KeyOf(e))
    {
      assert e in w.log;
      if w.tables.cursor.Some? && e.timestamp < Sec(w.tables.cursor.value) {
        HasKeyGrows(w.tables.rows, w'.tables.rows, KeyOf(e));
      } else {
        assert e in events;
      }
    }
  }

  /** An event logged before the end of a window already read, and after the first window's start. */
  predicate IsLate(w: World, e: Fwd) {
    w.tables.cursor.Some? && w.first.Some? && w.first.value <= e.timestamp < Sec(w.tables.cursor.value)
  }

  /** A logged event costs consistency exactly when it is late and its key is not in the table already. */
  lemma LoggingKeepsConsistent(w: World, e: Fwd)
    requires Consistent(w)
    ensures Consistent(Next(w, NodeLogs(e))) <==> IsLate(w, e) ==> HasKey(w.tables.rows, KeyOf(e))
  {
    var w' := Next(w, NodeLogs(e));
    assert e in w'.log;
    assert forall x :: x in w.log ==> x in w'.log;
  }

  lemma StepKeepsConsistent(w: World, a: Action)
    requires Consistent(w) && Allowed(w, a) && Timely(w, a)
    ensures Consistent(Next(w, a))
  {
    match a {
      case Commit(_, _, _, _) => CommitKeepsConsistent(w, a);
      case NodeLogs(e) => LoggingKeepsConsistent(w, e);
      case Tick(to) =>
      case Abort =>
    }
  }

  /** Over every run, with aborts anywhere, the table is consistent with the node's log. */
  lemma {:induction false} ExactlyOnceForwarding(states: seq<World>, actions: seq<Action>, n: nat)
    requires IsRun(states, actions) && AllTimely(states, actions) && n < |states|
    ensures Consistent(states[n])
  {
    if n > 0 {
      ExactlyOnceForwarding(states, actions, n - 1);
      StepKeepsConsistent(states[n - 1], actions[n - 1]);
    }
  }

  // ----- the same, column by column -----

  /** Two events agree in the four columns of the unique index; the others may differ. */
  predicate SameColumns(a: Fwd, b: Fwd) {
    a.timestamp == b.timestamp && a.chanIn == b.chanIn && a.chanOut == b.chanOut && a.amtOut == b.amtOut
  }

  /** Some row agrees with the event in all four columns. */
  ghost predicate HasSame(rows: seq<Fwd>, e: Fwd) {
    exists i :: 0 <= i < |rows| && SameColumns(rows[i], e)
  }

  /** The event lies in the first window's second or later, in a second that was over at the cursor. */
  predicate Covered(w: World, e: Fwd) {
    && w.tables.cursor.Some? && w.first.Some?
    && w.first.value <= e.timestamp && (e.timestamp + 1) * 1_000_000_000 <= w.tables.cursor.value
  }

  /** No two entries agree in all four columns. */
  ghost predicate ColumnsDiffer(s: seq<Fwd>) {
    forall i, j :: 0 <= i < j < |s| ==> !SameColumns(s[i], s[j])
  }

  lemma ColumnsAreKeys(s: seq<Fwd>)
    ensures DistinctKeys(s) <==> ColumnsDiffer(s)
  {
    if ColumnsDiffer(s) {
      forall i, j | 0 <= i < j < |s|
        ensures KeyOf(s[i]) != KeyOf(s[j])
      {
        assert !SameColumns(s[i], s[j]);
      }
    }
    if DistinctKeys(s) {
      forall i, j | 0 <= i < j < |s|
        ensures !SameColumns(s[i], s[j])
      {
        assert KeyOf(s[i]) != KeyOf(s[j]);
      }
    }
  }

  /**
    Over every run: no two rows agree in all four columns; every row is a logged event, whole; and
    every logged event from the first window's second on, whose second was over at the cursor, has a
    row that agrees with it in all four.
   */
  lemma ExactlyOnceByColumn(states: seq<World>, actions: seq<Action>, n: nat)
    requires IsRun(states, actions) && AllTimely(states, actions) && n < |states|
    ensures var w := states[n];
      && ColumnsDiffer(w.tables.rows)
      && (forall i :: 0 <= i < |w.tables.rows| ==> w.tables.rows[i] in w.log)
      && (w.tables.cursor.Some? ==> w.first.Some?)
      && (forall e :: e in w.log && Covered(w, e) ==> HasSame(w.tables.rows, e))
  {
    var w := states[n];
    ExactlyOnceForwarding(states, actions, n);
    ColumnsAreKeys(w.tables.rows);
    forall e | e in w.log && Covered(w, e)
      ensures HasSame(w.tables.rows, e)
    {
      assert e.timestamp < Sec(w.tables.cursor.value);
      var i :| 0 <= i < |w.tables.rows| && KeyOf(w.tables.rows[i]) == KeyOf(e);
      assert SameColumns(w.tables.rows[i], e);
    }
  }

  /** Inserting one more event keeps it exactly when no row agrees with it in all four. */
  lemma InsertByColumn(rows: seq<Fwd>, events: seq<Fwd>, e: Fwd)
    ensures var kept := Inserted(rows, events);
      Inserted(rows, events + [e]) == if HasSame(kept, e) then kept else kept + [e]
  {
    assert (events + [e])[..|events|] == events;
    var kept := Inserted(rows, events);
    assert forall i :: 0 <= i < |kept| ==> (SameColumns(kept[i], e) <==> KeyOf(kept[i]) == KeyOf(e));
  }

  lemma HasSameSnoc(rows: seq<Fwd>, last: Fwd, e: Fwd)
    ensures HasSame(rows + [last], e) <==> HasSame(rows, e) || SameColumns(last, e)
  {
    var after := rows + [last];
    assert after[|rows|] == last;
    if i :| 0 <= i < |rows| && SameColumns(rows[i], e) {
      assert SameColumns(after[i], e);
    }
  }

  lemma SameAsSame(rows: seq<Fwd>, a: Fwd, e: Fwd)
    requires HasSame(rows, a) && SameColumns(a, e)
    ensures HasSame(rows, e)
  {
    var i :| 0 <= i < |rows| && SameColumns(rows[i], a);
    assert SameColumns(rows[i], e);
  }

  /** After a batch, a row agrees with an event exactly when one did before, or an event of the batch does. */
  lemma {:induction false} BatchByColumn(rows: seq<Fwd>, events: seq<Fwd>, e: Fwd)
    ensures HasSame(Inserted(rows, events), e) <==> HasSame(rows, e) || HasSame(events, e)
  {
    if events != [] {
      var n := |events| - 1;
      assert events == events[..n] + [events[n]];
      BatchByColumn(rows, events[..n], e);
      InsertByColumn(rows, events[..n], events[n]);
      HasSameSnoc(events[..n], events[n], e);
      var kept := Inserted(rows, events[..n]);
      HasSameSnoc(kept, events[n], e);
      if HasSame(kept, events[n]) && SameColumns(events[n], e) {
        SameAsSame(kept, events[n], e);
      }
    }
  }

  // ----- what is late stays out -----

  /** Nothing dated before a window's start comes out of it. */
  lemma CycleLeavesPast(t: Tables, log: seq<Fwd>, historyStart: int, end: int, endIncluded: bool, k: Key)
    requires t.cursor.Some? && k.timestamp < Sec(t.cursor.value)
    ensures HasKey(Cycled(t, log, historyStart, end, endIncluded).rows, k) <==> HasKey(t.rows, k)
  {
    var events := Window(log, Sec(t.cursor.value), Sec(end), endIncluded);
    forall e | e in events
      ensures KeyOf(e) != k
    {
      WindowMembers(log, Sec(t.cursor.value), Sec(end), endIncluded, e);
    }
    InsertedAddsOnly(t.rows, events, k);
  }

  lemma {:induction false} InsertedAddsOnly(rows: seq<Fwd>, events: seq<Fwd>, k: Key)
    requires forall e :: e in events ==> KeyOf(e) != k
    ensures HasKey(Inserted(rows, events), k) <==> HasKey(rows, k)
  {
    if events != [] {
      var n := |events| - 1;
      assert events == events[..n] + [events[n]];
      InsertedAddsOnly(rows, events[..n], k);
      var before, after := Inserted(rows, events[..n]), Inserted(rows, events);
      if HasKey(before, k) {
        HasKeyGrows(before, after, k);
      }
      if i :| 0 <= i < |after| && KeyOf(after[i]) == k {
        assert i < |before| && KeyOf(before[i]) == k;
      }
    }
  }

  lemma {:induction false} CursorOnlyMoves(states: seq<World>, actions: seq<Action>, n: nat)
    requires IsRun(states, actions) && n < |states|
    ensures states[n].tables.cursor.Some? ==> states[n].tables.cursor.value <= states[n].now
  {
    if n > 0 {
      CursorOnlyMoves(states, actions, n - 1);
    }
  }

  /**
    Over every run, timely or not, the table is closed before the cursor's second: no later cycle
    adds or removes a key dated before it. So an event logged late, whose key is not in the table,
    is never fetched.
   */
  lemma {:induction false} PastIsClosed(states: seq<World>, actions: seq<Action>, m: nat, n: nat, k: Key)
    requires IsRun(states, actions) && m <= n < |states|
    requires states[m].tables.cursor.Some? && k.timestamp < Sec(states[m].tables.cursor.value)
    ensures HasKey(states[n].tables.rows, k) <==> HasKey(states[m].tables.rows, k)
    ensures states[n].tables.cursor.Some? && states[m].tables.cursor.value <= states[n].tables.cursor.value
    decreases n
  {
    if m < n {
      PastIsClosed(states, actions, m, n - 1, k);
      var w, a := states[n - 1], actions[n - 1];
      CursorOnlyMoves(states, actions, n - 1);
      SecMonotone(states[m].tables.cursor.value, w.tables.cursor.value);
      if a.Commit? {
        CycleLeavesPast(w.tables, (w.log + a.later)[..a.read], a.historyStart, w.now, a.endIncluded, k);
      }
    }
  }

  // ----- fee totals -----

  function FeeTerm(lo: int, hi: int): Fwd -> int {
    (e: Fwd) => if lo <= e.timestamp < hi then e.fee else 0
  }

  function Fees(s: seq<Fwd>, lo: int, hi: int): int {
    SumBy(s, FeeTerm(lo, hi))
  }

  function InSpan(s: seq<Fwd>, lo: int, hi: int): seq<Fwd> {
    if s == [] then []
    else if lo <= s[0].timestamp < hi then [s[0]] + InSpan(s[1..], lo, hi)
    else InSpan(s[1..], lo, hi)
  }

  lemma {:induction false} FeesInSpan(s: seq<Fwd>, lo: int, hi: int)
    ensures Fees(s, lo, hi) == Fees(InSpan(s, lo, hi), lo, hi)
  {
    if s != [] {
      FeesInSpan(s[1..], lo, hi);
      var rest := InSpan(s[1..], lo, hi);
      assert ([s[0]] + rest)[1..] == rest;
    }
  }

  /** In a sequence without repeated keys, each event of the span is counted once. */
  lemma {:induction false} SpanCounts(s: seq<Fwd>, lo: int, hi: int, e: Fwd)
    requires DistinctKeys(s)
    ensures multiset(InSpan(s, lo, hi))[e] == if e in s && lo <= e.timestamp < hi then 1 else 0
  {
    if s != [] {
      SpanCounts(s[1..], lo, hi, e);
      assert s == [s[0]] + s[1..];
      if e in s[1..] {
        var i :| 0 <= i < |s[1..]| && s[1..][i] == e;
        assert s[i + 1] == e && KeyOf(s[0]) != KeyOf(s[i + 1]);
      }
    }
  }

  /** The rows of the span are among the logged events of the span, each once. */
  lemma RowsAmongLog(w: World, lo: int, hi: int)
    requires Consistent(w)
    ensures multiset(InSpan(w.tables.rows, lo, hi)) <= multiset(InSpan(w.log, lo, hi))
  {
    forall e
      ensures multiset(InSpan(w.tables.rows, lo, hi))[e] <= multiset(InSpan(w.log, lo, hi))[e]
    {
      SpanCounts(w.tables.rows, lo, hi, e);
      InSpanMembers(w.log, lo, hi, e);
    }
  }

  lemma {:induction false} InSpanMembers(s: seq<Fwd>, lo: int, hi: int, e: Fwd)
    ensures e in InSpan(s, lo, hi) <==> e in s && lo <= e.timestamp < hi
  {
    if s != [] {
      assert s == [s[0]] + s[1..];
      InSpanMembers(s[1..], lo, hi, e);
    }
  }

  lemma {:induction false} SpanKeepsDistinct(s: seq<Fwd>, lo: int, hi: int)
    requires DistinctKeys(s)
    ensures DistinctKeys(InSpan(s, lo, hi))
  {
    if s != [] {
      var rest := InSpan(s[1..], lo, hi);
      SpanKeepsDistinct(s[1..], lo, hi);
      forall k | 0 <= k < |rest|
        ensures KeyOf(rest[k]) != KeyOf(s[0])
      {
        InSpanMembers(s[1..], lo, hi, rest[k]);
        var i :| 0 <= i < |s[1..]| && s[1..][i] == rest[k];
        assert s[i + 1] == rest[k];
      }
    }
  }

  lemma DistinctIsOrderless(a: seq<Fwd>, b: seq<Fwd>)
    requires DistinctKeys(a) && multiset(a) == multiset(b)
    ensures DistinctKeys(b)
  {
    forall i, j | 0 <= i < j < |b|
      ensures KeyOf(b[i]) != KeyOf(b[j])
    {
      assert b[i] in multiset(a) && b[j] in multiset(a);
      if b[i] == b[j] {
        CountTwice(b, i, j);
        DistinctCounts(a, b[j]);
      }
      var p :| 0 <= p < |a| && a[p] == b[i];
      var q :| 0 <= q < |a| && a[q] == b[j];
    }
  }

  lemma {:induction false} DistinctCounts(s: seq<Fwd>, e: Fwd)
    requires DistinctKeys(s)
    ensures multiset(s)[e] <= 1
  {
    if s != [] {
      assert s == [s[0]] + s[1..];
      assert s[0] !in s[1..];
      DistinctCounts(s[1..], e);
    }
  }

  lemma RemoveFromBoth(a: seq<Fwd>, b: seq<Fwd>, k: nat)
    requires a != [] && k < |b| && b[k] == a[0] && multiset(a) <= multiset(b)
    ensures multiset(a[1..]) <= multiset(Without(b, k))
    ensures multiset(b) == multiset{a[0]} + multiset(Without(b, k))
  {
    MultisetWithout(a, 0);
    assert Without(a, 0) == a[1..];
    MultisetWithout(b, k);
  }

  /** What the part leaves of the whole. */
  lemma {:induction false} Rest(a: seq<Fwd>, b: seq<Fwd>) returns (c: seq<Fwd>)
    requires multiset(a) <= multiset(b)
    ensures multiset(b) == multiset(a + c)
    decreases |a|
  {
    if a == [] {
      c := b;
      assert a + c == b;
    } else {
      assert a[0] in multiset(b);
      var k :| 0 <= k < |b| && b[k] == a[0];
      RemoveFromBoth(a, b, k);
      c := Rest(a[1..], Without(b, k));
      assert a + c == [a[0]] + (a[1..] + c);
    }
  }

  lemma {:induction false} SumOfNonNegative(c: seq<Fwd>, f: Fwd -> int)
    requires forall e :: e in c ==> f(e) >= 0
    ensures SumBy(c, f) >= 0
    ensures (forall e :: e in c ==> f(e) > 0) && SumBy(c, f) == 0 ==> c == []
  {
    if c != [] {
      assert c == [c[0]] + c[1..];
      SumOfNonNegative(c[1..], f);
    }
  }

  /** A part sums to no more than the whole; to the same only if it is the whole, when all terms are positive. */
  lemma PartialSum(a: seq<Fwd>, b: seq<Fwd>, f: Fwd -> int)
    requires multiset(a) <= multiset(b) && forall e :: e in b ==> f(e) >= 0
    ensures SumBy(a, f) <= SumBy(b, f)
    ensures (forall e :: e in b ==> f(e) > 0) && SumBy(a, f) == SumBy(b, f) ==> multiset(a) == multiset(b)
  {
    var c := Rest(a, b);
    SumByPermutation(b, a + c, f);
    SumByConcat(a, c, f);
    forall e | e in c
      ensures e in b
    {
      assert e in multiset(a + c);
    }
    SumOfNonNegative(c, f);
    assert c == [] ==> a + c == a;
  }

  /** When the logged events of the span have distinct keys, the table holds exactly them. */
  lemma DistinctSpanIsKept(w: World, lo: int, hi: int)
    requires Consistent(w) && w.first.Some? && lo == w.first.value && hi == Sec(w.tables.cursor.value)
    requires DistinctKeys(InSpan(w.log, lo, hi))
    ensures multiset(InSpan(w.tables.rows, lo, hi)) == multiset(InSpan(w.log, lo, hi))
  {
    var a, b := InSpan(w.tables.rows, lo, hi), InSpan(w.log, lo, hi);
    RowsAmongLog(w, lo, hi);
    forall e
      ensures multiset(b)[e] <= multiset(a)[e]
    {
      DistinctCounts(b, e);
      if e in b {
        InSpanMembers(w.log, lo, hi, e);
        var i :| 0 <= i < |w.tables.rows| && KeyOf(w.tables.rows[i]) == KeyOf(e);
        var r := w.tables.rows[i];
        InSpanMembers(w.log, lo, hi, r);
        InSpanMembers(w.tables.rows, lo, hi, r);
        assert r in w.tables.rows;
        var j :| 0 <= j < |b| && b[j] == r;
        var k :| 0 <= k < |b| && b[k] == e;
        assert j == k;
      }
    }
  }

  /** The fees of the span are the sum over the events of the span. */
  lemma FeesOfSpans(w: World, lo: int, hi: int)
    requires Consistent(w) && forall e :: e in w.log ==> e.fee >= 0
    ensures Fees(w.tables.rows, lo, hi) <= Fees(w.log, lo, hi)
    ensures (forall e :: e in w.log ==> e.fee > 0) && Fees(w.tables.rows, lo, hi) == Fees(w.log, lo, hi)
      ==> multiset(InSpan(w.tables.rows, lo, hi)) == multiset(InSpan(w.log, lo, hi))
  {
    var f := FeeTerm(lo, hi);
    RowsAmongLog(w, lo, hi);
    forall e | e in InSpan(w.log, lo, hi)
      ensures f(e) == e.fee && e in w.log
    {
      InSpanMembers(w.log, lo, hi, e);
    }
    PartialSum(InSpan(w.tables.rows, lo, hi), InSpan(w.log, lo, hi), f);
    FeesInSpan(w.tables.rows, lo, hi);
    FeesInSpan(w.log, lo, hi);
  }

  /**
    Over every run, fee totals from the first window to the cursor's second: with distinct columns
    they are the node's own, whatever the fees; with no negative fees they are never more; and
    with positive fees they are the node's own exactly when no two events agree in all four columns.
   */
  lemma FeesCountedOnce(states: seq<World>, actions: seq<Action>, n: nat)
    requires IsRun(states, actions) && AllTimely(states, actions) && n < |states|
    requires states[n].tables.cursor.Some?
    ensures var w := states[n];
      && w.first.Some?
      && var lo, hi := w.first.value, Sec(w.tables.cursor.value);
         var ours, theirs := Fees(w.tables.rows, lo, hi), Fees(w.log, lo, hi);
         && (ColumnsDiffer(InSpan(w.log, lo, hi)) ==> ours == theirs)
         && ((forall e :: e in w.log ==> e.fee >= 0) ==> ours <= theirs)
         && ((forall e :: e in w.log ==> e.fee > 0) ==> (ours == theirs <==> ColumnsDiffer(InSpan(w.log, lo, hi))))
  {
    ExactlyOnceForwarding(states, actions, n);
    var w := states[n];
    var lo, hi := w.first.value, Sec(w.tables.cursor.value);
    var a, b := InSpan(w.tables.rows, lo, hi), InSpan(w.log, lo, hi);
    ColumnsAreKeys(b);
    if DistinctKeys(b) {
      DistinctSpanIsKept(w, lo, hi);
      SumByPermutation(a, b, FeeTerm(lo, hi));
      FeesInSpan(w.tables.rows, lo, hi);
      FeesInSpan(w.log, lo, hi);
    }
    if forall e :: e in w.log ==> e.fee >= 0 {
      FeesOfSpans(w, lo, hi);
    }
    if (forall e :: e in w.log ==> e.fee > 0) && Fees(w.tables.rows, lo, hi) == Fees(w.log, lo, hi) {
      SpanKeepsDistinct(w.tables.rows, lo, hi);
      DistinctIsOrderless(a, b);
    }
  }

  /** How a fee is lost: of two events that share a key, the index drops the second. */
  lemma SharedKeyDropsFee(a: Fwd, b: Fwd)
    requires KeyOf(a) == KeyOf(b) && b.fee != 0
    ensures Inserted([], [a, b]) == [a]
    ensures forall lo, hi :: lo <= a.timestamp < hi ==> Fees(Inserted([], [a, b]), lo, hi) != Fees([a, b], lo, hi)
  {
    assert [a, b][..1] == [a] && [a][..0] == [];
    assert Inserted([], []) == [];
    assert Inserted([], [a]) == [a];
    assert KeyOf([a][0]) == KeyOf(b);
    forall lo, hi | lo <= a.timestamp < hi
      ensures Fees([a], lo, hi) != Fees([a, b], lo, hi)
    {
      assert [a, b][1..] == [b] && [b][1..] == [] && [a][1..] == [];
      var f := FeeTerm(lo, hi);
      assert SumBy([b], f) == f(b) + SumBy([], f);
    }
  }
}
