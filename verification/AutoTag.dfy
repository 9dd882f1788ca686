/**
  Tagging channel opens and closes as transfers (internal/db/queries.go), beside the user's own
  notes and toggles and the channel sync that feeds it (internal/db/store.go).
 */
module AutoTag {
  import opened Options

  const OPEN := "Channel Open"
  const CLOSE := "Channel Close"

  datatype Note = Note(text: string, isTransfer: bool)

  datatype Channel = Channel(point: string, closingTx: string, capacity: int, localBalance: int, active: bool)

  /** transaction_notes, channels, and the confirmations of each on-chain transaction. */
  datatype Tables = Tables(notes: map<string, Note>, channels: map<int, Channel>, onchain: map<string, int>)

  // ----- which transactions open and close channels -----

  /** SUBSTR(point, 1, INSTR(point, ':') - 1): the part before the first colon, empty if there is none. */
  function TxidOf(point: string): string {
    var i := Colon(point);
    if i < |point| then point[..i] else ""
  }

  function Colon(s: string): (i: nat)
    ensures i <= |s| && (i < |s| ==> s[i] == ':') && forall k :: 0 <= k < i ==> s[k] != ':'
  {
    if s == "" then 0
    else if s[0] == ':' then 0
    else
      var rest := Colon(s[1..]);
      assert forall k :: 1 <= k < rest + 1 ==> s[k] == s[1..][k - 1];
      rest + 1
  }

  predicate Opens(channels: map<int, Channel>, id: string) {
    exists c :: c in channels && channels[c].point != "" && TxidOf(channels[c].point) == id
  }

  predicate Closes(channels: map<int, Channel>, id: string) {
    exists c :: c in channels && channels[c].closingTx != "" && channels[c].closingTx == id
  }

  function Confirmed(t: Tables): set<string> {
    set id | id in t.onchain && t.onchain[id] > 0
  }

  function OpenIds(t: Tables): set<string> {
    set id | id in Confirmed(t) && Opens(t.channels, id)
  }

  /** Closes that are not also opens: opens take priority. */
  function CloseIds(t: Tables): set<string> {
    set id | id in Confirmed(t) && Closes(t.channels, id) && !Opens(t.channels, id)
  }

  // ----- the upserts -----

  predicate IsLabel(text: string) {
    text == "" || text == OPEN || text == CLOSE
  }

  /** The WHERE of the upsert: a new row, one not yet a transfer, or one without this label. */
  predicate Changes(was: Option<Note>, other: string) {
    was.None? || !was.value.isTransfer || was.value.text == "" || was.value.text == other
  }

  function Tagged(was: Option<Note>, tag: string): Note {
    Note(if was.None? || IsLabel(was.value.text) then tag else was.value.text, true)
  }

  function Find(notes: map<string, Note>, id: string): Option<Note> {
    if id in notes then Some(notes[id]) else None
  }

  /** A row after the statement, given whether it is among the statement's rows. */
  function NewNote(was: Option<Note>, selected: bool, tag: string, other: string): Option<Note> {
    if selected && Changes(was, other) then Some(Tagged(was, tag)) else was
  }

  function TagAll(notes: map<string, Note>, ids: set<string>, tag: string, other: string): map<string, Note> {
    map id | id in notes.Keys + ids :: NewNote(Find(notes, id), id in ids, tag, other).value
  }

  lemma FindTagged(notes: map<string, Note>, ids: set<string>, tag: string, other: string, id: string)
    ensures Find(TagAll(notes, ids, tag, other), id) == NewNote(Find(notes, id), id in ids, tag, other)
  {
  }

  lemma SameNotes(a: map<string, Note>, b: map<string, Note>)
    requires forall id :: Find(a, id) == Find(b, id)
    ensures a == b
  {
    assert forall id :: id in a <==> Find(a, id).Some?;
    assert forall id :: id in b <==> Find(b, id).Some?;
    assert a.Keys == b.Keys;
    assert forall id :: id in a ==> Find(a, id) == Some(a[id]) && Find(b, id) == Some(b[id]);
  }

  function ChangedIds(notes: map<string, Note>, ids: set<string>, other: string): set<string> {
    set id | id in ids && Changes(Find(notes, id), other)
  }

  function AutoTagged(t: Tables): Tables {
    t.(notes := TagAll(TagAll(t.notes, OpenIds(t), OPEN, CLOSE), CloseIds(t), CLOSE, OPEN))
  }

  function TagCount(t: Tables): nat {
    |ChangedIds(t.notes, OpenIds(t), CLOSE)|
    + |ChangedIds(TagAll(t.notes, OpenIds(t), OPEN, CLOSE), CloseIds(t), OPEN)|
  }

  // ----- the user's edits -----

  predicate IsSpace(c: char) {
    var n := c as int;
    9 <= n <= 13 || n == 32 || n == 0x85 || n == 0xA0 || n == 0x1680 || 0x2000 <= n <= 0x200A
    || n == 0x2028 || n == 0x2029 || n == 0x202F || n == 0x205F || n == 0x3000
  }

  function TrimLeft(s: string): string {
    if s != "" && IsSpace(s[0]) then TrimLeft(s[1..]) else s
  }

  function TrimRight(s: string): string {
    if s != "" && IsSpace(s[|s| - 1]) then TrimRight(s[..|s| - 1]) else s
  }

  function Trim(s: string): string {
    TrimRight(TrimLeft(s))
  }

  /** An empty note deletes the row, transfer flag and all. */
  function NoteSet(notes: map<string, Note>, id: string, text: string): map<string, Note> {
    if Trim(text) == "" then notes - {id}
    else notes[id := Note(Trim(text), id in notes && notes[id].isTransfer)]
  }

  function FlagSet(notes: map<string, Note>, id: string, isTransfer: bool): map<string, Note> {
    notes[id := Note(if id in notes then notes[id].text else "", isTransfer)]
  }

  // ----- the channel sync -----

  /** Blank or zero values never overwrite known ones; balances and the active flag always do. */
  function Merged(known: Channel, c: Channel): Channel {
    Channel(if c.point != "" then c.point else known.point,
            if c.closingTx != "" then c.closingTx else known.closingTx,
            if c.capacity > 0 then c.capacity else known.capacity,
            c.localBalance, c.active)
  }

  function Upserted(channels: map<int, Channel>, reported: seq<(int, Channel)>): map<int, Channel> {
    if reported == [] then channels
    else
      var before := Upserted(channels, reported[..|reported| - 1]);
      var (id, c) := reported[|reported| - 1];
      before[id := if id in before then Merged(before[id], c) else c]
  }

  // ----- the program -----

  class Database {
    var tables: Tables

    constructor ()
      ensures tables == Tables(map[], map[], map[])
    {
      tables := Tables(map[], map[], map[]);
    }

    /** One upsert statement, and how many rows it inserted or updated. */
    method Upsert(ids: set<string>, tag: string, other: string) returns (affected: nat)
      modifies this
      ensures tables == old(tables).(notes := TagAll(old(tables).notes, ids, tag, other))
      ensures affected == |ChangedIds(old(tables).notes, ids, other)|
    {
      affected := |ChangedIds(tables.notes, ids, other)|;
      tables := tables.(notes := TagAll(tables.notes, ids, tag, other));
    }

    method AutoTagChannelTransfers() returns (n: nat)
      modifies this
      ensures tables == AutoTagged(old(tables)) && n == TagCount(old(tables))
    {
      var opens := Upsert(OpenIds(tables), OPEN, CLOSE);
      var closes := Upsert(CloseIds(tables), CLOSE, OPEN);
      n := opens + closes;
    }

    method SetTransactionNote(id: string, text: string)
      modifies this
      ensures tables == old(tables).(notes := NoteSet(old(tables).notes, id, text))
    {
      if Trim(text) == "" {
        tables := tables.(notes := tables.notes - {id});
      } else {
        var flag := id in tables.notes && tables.notes[id].isTransfer;
        tables := tables.(notes := tables.notes[id := Note(Trim(text), flag)]);
      }
    }

    method SetTransferFlag(id: string, isTransfer: bool)
      modifies this
      ensures tables == old(tables).(notes := FlagSet(old(tables).notes, id, isTransfer))
    {
      var text := if id in tables.notes then tables.notes[id].text else "";
      tables := tables.(notes := tables.notes[id := Note(text, isTransfer)]);
    }

    method UpsertChannels(reported: seq<(int, Channel)>)
      modifies this
      ensures tables == old(tables).(channels := Upserted(old(tables).channels, reported))
    {
      var channels := tables.channels;
      for k := 0 to |reported|
        invariant channels == Upserted(tables.channels, reported[..k]) && tables == old(tables)
      {
        assert reported[..k + 1][..k] == reported[..k];
        var (id, c) := reported[k];
        channels := channels[id := if id in channels then Merged(channels[id], c) else c];
      }
      assert reported[..|reported|] == reported;
      tables := tables.(channels := channels);
    }
  }

  // ----- what a run of auto-tagging leaves -----

  /** A confirmed transaction that opens or closes a channel. */
  predicate IsChannelTx(t: Tables, id: string) {
    id in Confirmed(t) && (Opens(t.channels, id) || Closes(t.channels, id))
  }

  /** The label a confirmed channel transaction deserves. */
  function LabelFor(t: Tables, id: string): string {
    if Opens(t.channels, id) then OPEN else CLOSE
  }

  /**
    After a run, every confirmed transaction that opens or closes a channel is a transfer, opens
    labelled before closes, unless the user wrote a text of their own; nothing else changes.
   */
  lemma TagsChannelTransactions(t: Tables, id: string)
    ensures var notes := AutoTagged(t).notes;
      if IsChannelTx(t, id) then
        && id in notes && notes[id].isTransfer
        && notes[id].text == (if id in t.notes && !IsLabel(t.notes[id].text) then t.notes[id].text else LabelFor(t, id))
      else Find(notes, id) == Find(t.notes, id)
  {
    assert id in OpenIds(t) <==> id in Confirmed(t) && Opens(t.channels, id);
    assert id in CloseIds(t) <==> id in Confirmed(t) && Closes(t.channels, id) && !Opens(t.channels, id);
    FindTagged(t.notes, OpenIds(t), OPEN, CLOSE, id);
    FindTagged(TagAll(t.notes, OpenIds(t), OPEN, CLOSE), CloseIds(t), CLOSE, OPEN, id);
  }

  /** The rows a run leaves different from what they were. */
  function Altered(t: Tables): set<string> {
    set id | id in t.notes.Keys + OpenIds(t) + CloseIds(t) && Find(AutoTagged(t).notes, id) != Find(t.notes, id)
  }

  /** The WHERE of an upsert lets through exactly the rows it makes different. */
  lemma ChangesAreVisible(was: Option<Note>, tag: string, other: string)
    requires (tag == OPEN && other == CLOSE) || (tag == CLOSE && other == OPEN)
    ensures NewNote(was, true, tag, other) != was <==> Changes(was, other)
    ensures NewNote(was, false, tag, other) == was
  {
    assert OPEN[8] != CLOSE[8];
  }

  /** The count a run reports is the number of rows it altered: none is counted twice or for nothing. */
  lemma CountIsRowsAltered(t: Tables)
    ensures TagCount(t) == |Altered(t)|
  {
    var opens, closes := OpenIds(t), CloseIds(t);
    var half := TagAll(t.notes, opens, OPEN, CLOSE);
    var first, second := ChangedIds(t.notes, opens, CLOSE), ChangedIds(half, closes, OPEN);
    forall id
      ensures id in Altered(t) <==> id in first + second
    {
      FindTagged(t.notes, opens, OPEN, CLOSE, id);
      FindTagged(half, closes, CLOSE, OPEN, id);
      ChangesAreVisible(Find(t.notes, id), OPEN, CLOSE);
      ChangesAreVisible(Find(half, id), CLOSE, OPEN);
    }
    assert Altered(t) == first + second;
    assert first !! second;
  }

  lemma NothingToChange(notes: map<string, Note>, ids: set<string>, tag: string, other: string)
    requires forall id :: id in ids ==> !Changes(Find(notes, id), other)
    ensures TagAll(notes, ids, tag, other) == notes && ChangedIds(notes, ids, other) == {}
  {
    forall id
      ensures Find(TagAll(notes, ids, tag, other), id) == Find(notes, id)
    {
      FindTagged(notes, ids, tag, other, id);
    }
    SameNotes(TagAll(notes, ids, tag, other), notes);
  }

  /** An immediate second run changes nothing and reports nothing. */
  lemma SecondRunIsIdle(t: Tables)
    ensures AutoTagged(AutoTagged(t)) == AutoTagged(t) && TagCount(AutoTagged(t)) == 0
  {
    var t' := AutoTagged(t);
    assert OpenIds(t') == OpenIds(t) && CloseIds(t') == CloseIds(t);
    forall id | id in OpenIds(t)
      ensures !Changes(Find(t'.notes, id), CLOSE)
    {
      TagsChannelTransactions(t, id);
    }
    forall id | id in CloseIds(t)
      ensures !Changes(Find(t'.notes, id), OPEN)
    {
      TagsChannelTransactions(t, id);
    }
    NothingToChange(t'.notes, OpenIds(t), OPEN, CLOSE);
    NothingToChange(t'.notes, CloseIds(t), CLOSE, OPEN);
  }

  // ----- user text over runs -----

  datatype Action =
    | RunAutoTag
    | EditNote(id: string, text: string)
    | Toggle(id: string, isTransfer: bool)
    | SyncChannels(reported: seq<(int, Channel)>)
    | SyncOnchain(onchain: map<string, int>)

  function Next(t: Tables, a: Action): Tables {
    match a
    case RunAutoTag => AutoTagged(t)
    case EditNote(id, text) => t.(notes := NoteSet(t.notes, id, text))
    case Toggle(id, isTransfer) => t.(notes := FlagSet(t.notes, id, isTransfer))
    case SyncChannels(reported) => t.(channels := Upserted(t.channels, reported))
    case SyncOnchain(onchain) => t.(onchain := t.onchain + onchain)
  }

  function After(t: Tables, actions: seq<Action>): Tables {
    if actions == [] then t else Next(After(t, actions[..|actions| - 1]), actions[|actions| - 1])
  }

  /** The last text the user gave for the id, or what was there before the run. */
  function LastEdit(before: Option<string>, actions: seq<Action>, id: string): Option<string> {
    if actions == [] then before
    else
      var a := actions[|actions| - 1];
      if a.EditNote? && a.id == id then (if Trim(a.text) == "" then None else Some(Trim(a.text)))
      else LastEdit(before, actions[..|actions| - 1], id)
  }

  function TextOf(t: Tables, id: string): Option<string> {
    if id in t.notes then Some(t.notes[id].text) else None
  }

  /** No text, or one of the labels. */
  predicate NotUserText(text: Option<string>) {
    text.None? || IsLabel(text.value)
  }

  /**
    Over every interleaving of auto-tag runs, toggles, edits and syncs, user-written text is
    exactly what the user last wrote: the other actions neither change nor invent it.
   */
  lemma {:induction false} UserTextSurvives(t: Tables, actions: seq<Action>, id: string)
    ensures var written, now := LastEdit(TextOf(t, id), actions, id), TextOf(After(t, actions), id);
      if NotUserText(written) then NotUserText(now) else now == written
  {
    if actions != [] {
      var n := |actions| - 1;
      var before := After(t, actions[..n]);
      UserTextSurvives(t, actions[..n], id);
      if actions[n].RunAutoTag? {
        TagsChannelTransactions(before, id);
      }
    }
  }

  /**
    The text after a run of actions, labels and all: what the user last wrote, relabelled by each run
    that found a channel transaction with no text of the user's own.
   */
  function TextAfter(t: Tables, actions: seq<Action>, id: string): Option<string> {
    if actions == [] then TextOf(t, id)
    else
      var n := |actions| - 1;
      var before, prior := After(t, actions[..n]), TextAfter(t, actions[..n], id);
      match actions[n]
      case EditNote(x, text) => if x != id then prior else if Trim(text) == "" then None else Some(Trim(text))
      case Toggle(x, _) => if x == id && prior.None? then Some("") else prior
      case RunAutoTag => if IsChannelTx(before, id) && NotUserText(prior) then Some(LabelFor(before, id)) else prior
      case SyncChannels(_) => prior
      case SyncOnchain(_) => prior
  }

  lemma {:induction false} TextIsTextAfter(t: Tables, actions: seq<Action>, id: string)
    ensures TextOf(After(t, actions), id) == TextAfter(t, actions, id)
  {
    if actions != [] {
      var n := |actions| - 1;
      TextIsTextAfter(t, actions[..n], id);
      if actions[n].RunAutoTag? {
        TagsChannelTransactions(After(t, actions[..n]), id);
      }
    }
  }

  /** A run changes a text exactly when it is a label other than the one the transaction deserves. */
  lemma RunChangesTextExactly(t: Tables, id: string)
    requires id in t.notes
    ensures id in AutoTagged(t).notes
    ensures AutoTagged(t).notes[id].text != t.notes[id].text
       <==> IsChannelTx(t, id) && IsLabel(t.notes[id].text) && t.notes[id].text != LabelFor(t, id)
  {
    TagsChannelTransactions(t, id);
  }

  // ----- transfer marks over runs -----

  predicate IsMarked(t: Tables, id: string) {
    id in t.notes && t.notes[id].isTransfer
  }

  predicate Marks(t: Tables, a: Action, id: string) {
    (a.Toggle? && a.id == id && a.isTransfer) || (a.RunAutoTag? && IsChannelTx(t, id))
  }

  /** Switching the mark off, and clearing the note, which drops the row with its mark. */
  predicate Unmarks(a: Action, id: string) {
    (a.Toggle? && a.id == id && !a.isTransfer) || (a.EditNote? && a.id == id && Trim(a.text) == "")
  }

  lemma StepMarks(t: Tables, a: Action, id: string)
    ensures IsMarked(Next(t, a), id) <==> Marks(t, a, id) || (IsMarked(t, id) && !Unmarks(a, id))
  {
    if a.RunAutoTag? {
      TagsChannelTransactions(t, id);
    }
  }

  /** The k-th action marked the id, and no action from then on unmarked it. */
  ghost predicate MarkedAt(t: Tables, actions: seq<Action>, id: string, k: nat)
    requires k < |actions|
  {
    Marks(After(t, actions[..k]), actions[k], id) && NeverUnmarked(actions, id, k + 1)
  }

  ghost predicate NeverUnmarked(actions: seq<Action>, id: string, from: nat) {
    forall j :: from <= j < |actions| ==> !Unmarks(actions[j], id)
  }

  lemma NeverUnmarkedSnoc(actions: seq<Action>, id: string, from: nat)
    requires actions != [] && from < |actions|
    ensures NeverUnmarked(actions, id, from)
       <==> NeverUnmarked(actions[..|actions| - 1], id, from) && !Unmarks(actions[|actions| - 1], id)
  {
    var n := |actions| - 1;
    if NeverUnmarked(actions[..n], id, from) && !Unmarks(actions[n], id) {
      forall j | from <= j < |actions|
        ensures !Unmarks(actions[j], id)
      {
        assert j < n ==> actions[..n][j] == actions[j];
      }
    }
  }

  /** Some action marked the id, and none unmarked it since. */
  ghost predicate MarkedSince(t: Tables, actions: seq<Action>, id: string) {
    exists k :: 0 <= k < |actions| && MarkedAt(t, actions, id, k)
  }

  lemma MarkedAtSnoc(t: Tables, actions: seq<Action>, id: string, k: nat)
    requires k < |actions| - 1
    ensures MarkedAt(t, actions, id, k)
       <==> MarkedAt(t, actions[..|actions| - 1], id, k) && !Unmarks(actions[|actions| - 1], id)
  {
    assert actions[..|actions| - 1][..k] == actions[..k];
    NeverUnmarkedSnoc(actions, id, k + 1);
  }

  lemma MarkedSinceSnoc(t: Tables, actions: seq<Action>, id: string)
    requires actions != []
    ensures var n := |actions| - 1;
      MarkedSince(t, actions, id)
      <==> Marks(After(t, actions[..n]), actions[n], id)
           || (MarkedSince(t, actions[..n], id) && !Unmarks(actions[n], id))
  {
    var n := |actions| - 1;
    assert MarkedAt(t, actions, id, n) <==> Marks(After(t, actions[..n]), actions[n], id);
    if MarkedSince(t, actions[..n], id) && !Unmarks(actions[n], id) {
      var k :| 0 <= k < n && MarkedAt(t, actions[..n], id, k);
      MarkedAtSnoc(t, actions, id, k);
    }
    if k :| 0 <= k < n && MarkedAt(t, actions, id, k) {
      MarkedAtSnoc(t, actions, id, k);
    }
  }

  /**
    Over every interleaving of runs, toggles, edits and syncs, a transaction is marked as a transfer
    exactly when something marked it - the user, or a run that found it to open or close a channel -
    and nothing unmarked it since; an edit unmarks only by clearing the note.
   */
  lemma {:induction false} MarkSurvivesExactly(t: Tables, actions: seq<Action>, id: string)
    ensures IsMarked(After(t, actions), id)
       <==> (IsMarked(t, id) && NeverUnmarked(actions, id, 0))
            || MarkedSince(t, actions, id)
  {
    if actions != [] {
      var n := |actions| - 1;
      MarkSurvivesExactly(t, actions[..n], id);
      StepMarks(After(t, actions[..n]), actions[n], id);
      NeverUnmarkedSnoc(actions, id, 0);
      MarkedSinceSnoc(t, actions, id);
    }
  }

  /** So clearing a note also unmarks the transfer, and a run marks it again only if it is a channel transaction. */
  lemma ClearingNoteUnmarks(t: Tables, id: string, text: string)
    requires Trim(text) == ""
    ensures var cleared := t.(notes := NoteSet(t.notes, id, text));
      && id !in cleared.notes
      && (id in AutoTagged(cleared).notes <==> IsChannelTx(t, id))
      && (id in AutoTagged(cleared).notes ==> AutoTagged(cleared).notes[id] == Note(LabelFor(t, id), true))
  {
    TagsChannelTransactions(t.(notes := NoteSet(t.notes, id, text)), id);
  }

  /** What the node once reported about a channel is not forgotten by later reports that leave it blank. */
  lemma {:induction false} BlankReportsForgetNothing(channels: map<int, Channel>, reported: seq<(int, Channel)>, c: int)
    requires c in channels
    requires forall k :: 0 <= k < |reported| && reported[k].0 == c ==>
      (reported[k].1.point == "" || reported[k].1.point == channels[c].point)
      && (reported[k].1.closingTx == "" || channels[c].closingTx == ""
          || reported[k].1.closingTx == channels[c].closingTx)
    ensures var after := Upserted(channels, reported);
      && c in after && after[c].point == channels[c].point
      && (channels[c].closingTx != "" ==> after[c].closingTx == channels[c].closingTx)
  {
    if reported != [] {
      BlankReportsForgetNothing(channels, reported[..|reported| - 1], c);
    }
  }

  // ----- points, labels and notes, in plain terms -----

  /**
    The channel point names the transaction: its text up to the first colon is the id; without a
    colon it names none.
   */
  predicate Names(point: string, id: string) {
    if ':' in point then |id| < |point| && point[..|id|] == id && point[|id|] == ':' && ':' !in id
    else point != "" && id == ""
  }

  lemma PointNames(point: string, id: string)
    requires point != ""
    ensures TxidOf(point) == id <==> Names(point, id)
  {
    var i := Colon(point);
    assert i < |point| <==> ':' in point;
    if i < |point| {
      assert forall k :: 0 <= k < i ==> point[..i][k] == point[k];
      if Names(point, id) {
        assert point[|id|] == ':';
        assert forall k :: 0 <= k < |id| ==> id[k] == point[k];
      }
    }
  }

  ghost predicate OpensSome(t: Tables, id: string) {
    exists c :: c in t.channels && Names(t.channels[c].point, id)
  }

  ghost predicate ClosesSome(t: Tables, id: string) {
    id != "" && exists c :: c in t.channels && t.channels[c].closingTx == id
  }

  lemma ChannelTxExactly(t: Tables, id: string)
    ensures Opens(t.channels, id) <==> OpensSome(t, id)
    ensures Closes(t.channels, id) <==> ClosesSome(t, id)
  {
    forall c | c in t.channels && t.channels[c].point != ""
      ensures TxidOf(t.channels[c].point) == id <==> Names(t.channels[c].point, id)
    {
      PointNames(t.channels[c].point, id);
    }
  }

  /**
    What a run leaves for an id: if it is confirmed and named by a channel point, or else the closing
    transaction of a channel, it is a transfer, and a blank or label text becomes "Channel Open" or
    else "Channel Close"; anything else is left alone.
   */
  lemma RunExactly(t: Tables, id: string)
    ensures var notes := AutoTagged(t).notes;
      if id in t.onchain && t.onchain[id] > 0 && (OpensSome(t, id) || ClosesSome(t, id)) then
        var due := if OpensSome(t, id) then "Channel Open" else "Channel Close";
        && id in notes && notes[id].isTransfer
        && notes[id].text == (if id in t.notes && t.notes[id].text !in ["", "Channel Open", "Channel Close"]
                              then t.notes[id].text else due)
      else
        (id in notes <==> id in t.notes) && (id in t.notes ==> notes[id] == t.notes[id])
  {
    ChannelTxExactly(t, id);
    TagsChannelTransactions(t, id);
  }

  /** What one report of a channel leaves: new text and capacity where it has some, its balance and state always. */
  lemma ReportExactly(channels: map<int, Channel>, id: int, c: Channel)
    ensures var after := Upserted(channels, [(id, c)]);
      && after.Keys == channels.Keys + {id}
      && (forall x :: x in channels && x != id ==> after[x] == channels[x])
      && (id !in channels ==> after[id] == c)
      && (id in channels ==>
           && after[id].point == (if c.point == "" then channels[id].point else c.point)
           && after[id].closingTx == (if c.closingTx == "" then channels[id].closingTx else c.closingTx)
           && after[id].capacity == (if c.capacity <= 0 then channels[id].capacity else c.capacity)
           && after[id].localBalance == c.localBalance && after[id].active == c.active)
  {
    assert [(id, c)][..0] == [];
  }

  ghost predicate AllSpace(s: string) {
    forall k :: 0 <= k < |s| ==> IsSpace(s[k])
  }

  lemma {:induction false} TrimLeftExactly(s: string) returns (before: string)
    ensures s == before + TrimLeft(s) && AllSpace(before)
    ensures TrimLeft(s) != "" ==> !IsSpace(TrimLeft(s)[0])
  {
    before := "";
    if s != "" && IsSpace(s[0]) {
      before := TrimLeftExactly(s[1..]);
      before := [s[0]] + before;
    }
  }

  lemma {:induction false} TrimRightExactly(s: string) returns (after: string)
    ensures s == TrimRight(s) + after && AllSpace(after)
    ensures TrimRight(s) != "" ==> !IsSpace(TrimRight(s)[|TrimRight(s)| - 1])
  {
    after := "";
    if s != "" && IsSpace(s[|s| - 1]) {
      after := TrimRightExactly(s[..|s| - 1]);
      after := after + [s[|s| - 1]];
    }
  }

  /** A trimmed note is the note without the space around it. */
  lemma TrimExactly(s: string) returns (before: string, after: string)
    ensures s == before + Trim(s) + after && AllSpace(before) && AllSpace(after)
    ensures Trim(s) != "" ==> !IsSpace(Trim(s)[0]) && !IsSpace(Trim(s)[|Trim(s)| - 1])
  {
    before := TrimLeftExactly(s);
    after := TrimRightExactly(TrimLeft(s));
  }
}
