/**
  Exporting transactions to Monarch (internal/monarch/sync.go, internal/syncer/syncer.go):
  list what is unsynced, ask Monarch what it already has, create the rest, mark what exists.
  Creates may succeed and still report an error, and the process may die before marking.
 */
module MonarchExport {
  import opened Options
  import opened MonarchNotes

  datatype Tx = Tx(sourceID: string, source: string, txType: string, amountUSD: real)

  /** A transaction held by Monarch. `origin` is the row it was created for, if Satsbook created it. */
  datatype RemoteTx = RemoteTx(id: string, notes: string, origin: Option<string>)

  /** What becomes of one create call. */
  datatype Reply = Created(id: string) | CreatedButFailed(id: string) | Refused

  datatype Counts = Counts(created: nat, skipped: nat, errors: nat)

  datatype Batch = Batch(remote: seq<RemoteTx>, synced: map<string, string>, counts: Counts)

  predicate BelowCent(tx: Tx) {
    -0.01 < tx.amountUSD < 0.01
  }

  /** The last transaction whose note reads as an id is the one reported for it. */
  function ExistingOf(page: seq<RemoteTx>): map<string, string> {
    if page == [] then map[]
    else
      var t := page[|page| - 1];
      var m := ExistingOf(page[..|page| - 1]);
      match ParseNote(t.notes)
      case Some(id) => m[id := t.id]
      case None => m
  }

  /** What the dedup query tells; a failed query tells nothing. */
  function Known(page: Option<seq<RemoteTx>>): map<string, string> {
    if page.Some? then ExistingOf(page.value) else map[]
  }

  function Landed(remote: seq<RemoteTx>, tx: Tx, reply: Reply): seq<RemoteTx> {
    match reply
    case Refused => remote
    case Created(id) => remote + [RemoteTx(id, NotesFor(tx.txType, tx.sourceID), Some(tx.sourceID))]
    case CreatedButFailed(id) => remote + [RemoteTx(id, NotesFor(tx.txType, tx.sourceID), Some(tx.sourceID))]
  }

  function ExportOne(b: Batch, existing: map<string, string>, tx: Tx, reply: Reply): Batch {
    if BelowCent(tx) then b.(counts := b.counts.(skipped := b.counts.skipped + 1))
    else if tx.sourceID in existing then
      b.(synced := b.synced[tx.sourceID := existing[tx.sourceID]],
         counts := b.counts.(skipped := b.counts.skipped + 1))
    else
      var b' := b.(remote := Landed(b.remote, tx, reply));
      if reply.Created? then
        b'.(synced := b.synced[tx.sourceID := reply.id], counts := b.counts.(created := b.counts.created + 1))
      else
        b'.(counts := b.counts.(errors := b.counts.errors + 1))
  }

  /** A batch, given what the dedup query reported and what became of each create. */
  function Export(remote: seq<RemoteTx>, existing: map<string, string>, txns: seq<Tx>, replies: seq<Reply>): Batch
    requires |replies| == |txns|
  {
    if txns == [] then Batch(remote, map[], Counts(0, 0, 0))
    else
      var n := |txns| - 1;
      ExportOne(Export(remote, existing, txns[..n], replies[..n]), existing, txns[n], replies[n])
  }

  // ----- the program -----

  /** The remote service. */
  class Monarch {
    var txns: seq<RemoteTx>

    constructor ()
      ensures txns == []
    {
      txns := [];
    }

    method Create(tx: Tx, reply: Reply) returns (id: Option<string>)
      modifies this
      ensures txns == Landed(old(txns), tx, reply)
      ensures id == if reply.Created? then Some(reply.id) else None
    {
      id := None;
      match reply {
        case Refused =>
        case Created(i) =>
          txns := txns + [RemoteTx(i, NotesFor(tx.txType, tx.sourceID), Some(tx.sourceID))];
          id := Some(i);
        case CreatedButFailed(i) =>
          txns := txns + [RemoteTx(i, NotesFor(tx.txType, tx.sourceID), Some(tx.sourceID))];
      }
    }
  }

  /** `page` is the answer of the dedup query; None when the query failed. */
  method FetchExistingSourceIDs(page: Option<seq<RemoteTx>>) returns (existing: map<string, string>)
    ensures existing == Known(page)
  {
    existing := map[];
    if page.None? {
      return;
    }
    var list := page.value;
    for k := 0 to |list|
      invariant existing == ExistingOf(list[..k])
    {
      assert list[..k + 1][..k] == list[..k];
      var parsed := ParseNote(list[k].notes);
      if parsed.Some? {
        existing := existing[parsed.value := list[k].id];
      }
    }
    assert list[..|list|] == list;
  }

  method SyncTransactions(server: Monarch, page: Option<seq<RemoteTx>>, txns: seq<Tx>, replies: seq<Reply>)
    returns (result: Counts, synced: map<string, string>)
    requires |replies| == |txns|
    modifies server
    ensures Batch(server.txns, synced, result) == Export(old(server.txns), Known(page), txns, replies)
  {
    var existing := FetchExistingSourceIDs(page);
    result, synced := Counts(0, 0, 0), map[];
    for i := 0 to |txns|
      invariant Batch(server.txns, synced, result) == Export(old(server.txns), existing, txns[..i], replies[..i])
    {
      assert txns[..i + 1][..i] == txns[..i] && replies[..i + 1][..i] == replies[..i];
      var tx := txns[i];
      if -0.01 < tx.amountUSD < 0.01 {
        result := result.(skipped := result.skipped + 1);
      } else if tx.sourceID in existing {
        synced := synced[tx.sourceID := existing[tx.sourceID]];
        result := result.(skipped := result.skipped + 1);
      } else {
        var id := server.Create(tx, replies[i]);
        if id.None? {
          result := result.(errors := result.errors + 1);
        } else {
          synced := synced[tx.sourceID := id.value];
          result := result.(created := result.created + 1);
        }
      }
    }
    assert txns[..|txns|] == txns && replies[..|replies|] == replies;
  }

  // ----- at most one Monarch transaction per row -----

  function Copies(remote: seq<RemoteTx>, id: string): nat {
    if remote == [] then 0
    else Copies(remote[..|remote| - 1], id) + (if remote[|remote| - 1].origin == Some(id) then 1 else 0)
  }

  /** What Satsbook created for the row can be recognised by its note. */
  ghost predicate Recognisable(remote: seq<RemoteTx>, id: string) {
    forall k :: 0 <= k < |remote| && remote[k].origin == Some(id) ==> ParseNote(remote[k].notes) == Some(id)
  }

  ghost predicate OccursOnce(txns: seq<Tx>, id: string) {
    forall i, j :: 0 <= i < j < |txns| && txns[i].sourceID == id ==> txns[j].sourceID != id
  }

  ghost predicate CleanIds(txns: seq<Tx>) {
    forall i :: 0 <= i < |txns| ==> !HasMark(txns[i].sourceID)
  }

  /** The dedup query succeeded and left out nothing created for the row. */
  ghost predicate Complete(page: Option<seq<RemoteTx>>, remote: seq<RemoteTx>, id: string) {
    page.Some? && forall t :: t in remote && t.origin == Some(id) ==> t in page.value
  }

  lemma {:induction false} ExistingFinds(page: seq<RemoteTx>, id: string)
    ensures id in ExistingOf(page) <==> exists t :: t in page && ParseNote(t.notes) == Some(id)
    ensures id in ExistingOf(page) ==>
      exists t :: t in page && ParseNote(t.notes) == Some(id) && t.id == ExistingOf(page)[id]
  {
    if page != [] {
      var t := page[|page| - 1];
      var rest := page[..|page| - 1];
      assert page == rest + [t];
      ExistingFinds(rest, id);
      if ParseNote(t.notes) == Some(id) {
        assert t in page;
      } else if id in ExistingOf(rest) {
        var u :| u in rest && ParseNote(u.notes) == Some(id) && u.id == ExistingOf(rest)[id];
        assert u in page;
      }
    }
  }

  /** Of several listed transactions whose notes read as the id, the last is the one reported. */
  lemma {:induction false} LastOneWins(page: seq<RemoteTx>, id: string, i: nat)
    requires i < |page| && ParseNote(page[i].notes) == Some(id)
    requires forall j :: i < j < |page| ==> ParseNote(page[j].notes) != Some(id)
    ensures id in ExistingOf(page) && ExistingOf(page)[id] == page[i].id
  {
    if i < |page| - 1 {
      LastOneWins(page[..|page| - 1], id, i);
    }
  }

  lemma {:induction false} CopiesNeedOrigin(remote: seq<RemoteTx>, id: string)
    ensures Copies(remote, id) > 0 ==> exists t :: t in remote && t.origin == Some(id)
  {
    if remote != [] {
      var t := remote[|remote| - 1];
      assert t in remote;
      CopiesNeedOrigin(remote[..|remote| - 1], id);
    }
  }

  lemma CopiesSnoc(remote: seq<RemoteTx>, t: RemoteTx, id: string)
    ensures Copies(remote + [t], id) == Copies(remote, id) + if t.origin == Some(id) then 1 else 0
  {
    assert (remote + [t])[..|remote|] == remote;
  }

  /** A create for the row that reaches Monarch, given that the dedup query did not know it. */
  predicate Sends(tx: Tx, reply: Reply, id: string) {
    tx.sourceID == id && !BelowCent(tx) && !reply.Refused?
  }

  /** How many rows of that id the batch would send. */
  function Sent(txns: seq<Tx>, replies: seq<Reply>, id: string): nat
    requires |replies| == |txns|
  {
    if txns == [] then 0
    else
      var n := |txns| - 1;
      Sent(txns[..n], replies[..n], id) + (if Sends(txns[n], replies[n], id) then 1 else 0)
  }

  /** Exactly what a batch does to the copies of any row, whatever its id, the account and the other rows. */
  lemma {:induction false} ExportCopies(remote: seq<RemoteTx>, existing: map<string, string>, txns: seq<Tx>,
                                        replies: seq<Reply>, id: string)
    requires |replies| == |txns|
    ensures Copies(Export(remote, existing, txns, replies).remote, id)
         == Copies(remote, id) + (if id in existing then 0 else Sent(txns, replies, id))
  {
    if txns != [] {
      var n := |txns| - 1;
      var b := Export(remote, existing, txns[..n], replies[..n]);
      ExportCopies(remote, existing, txns[..n], replies[..n], id);
      var tx, reply := txns[n], replies[n];
      if !BelowCent(tx) && tx.sourceID !in existing && !reply.Refused? {
        CopiesSnoc(b.remote, RemoteTx(reply.id, NotesFor(tx.txType, tx.sourceID), Some(tx.sourceID)), id);
      }
    }
  }

  lemma {:induction false} SentIff(txns: seq<Tx>, replies: seq<Reply>, id: string)
    requires |replies| == |txns|
    ensures Sent(txns, replies, id) > 0 <==> exists i :: 0 <= i < |txns| && Sends(txns[i], replies[i], id)
    ensures OccursOnce(txns, id) ==> Sent(txns, replies, id) <= 1
  {
    if txns != [] {
      var n := |txns| - 1;
      SentIff(txns[..n], replies[..n], id);
      if i :| 0 <= i < n && Sends(txns[..n][i], replies[..n][i], id) {
        assert Sends(txns[i], replies[i], id);
      }
      if i :| 0 <= i < |txns| && Sends(txns[i], replies[i], id) {
        assert i < n ==> Sends(txns[..n][i], replies[..n][i], id);
      }
    }
  }

  /**
    The exact condition for a second copy: of a row Monarch holds once, it still holds one after a
    batch exactly when the dedup query knew the row, or no create for it got through.
   */
  lemma SecondCopyExactly(remote: seq<RemoteTx>, page: Option<seq<RemoteTx>>, txns: seq<Tx>, replies: seq<Reply>,
                          id: string)
    requires |replies| == |txns| && Copies(remote, id) == 1
    ensures Copies(Export(remote, Known(page), txns, replies).remote, id) == 1
       <==> id in Known(page) || forall i :: 0 <= i < |txns| ==> !Sends(txns[i], replies[i], id)
  {
    ExportCopies(remote, Known(page), txns, replies, id);
    SentIff(txns, replies, id);
  }

  /** Without the dedup answer the promise is void: every create that gets through adds a copy. */
  lemma FailedDedupDuplicates(remote: seq<RemoteTx>, txns: seq<Tx>, replies: seq<Reply>, id: string)
    requires |replies| == |txns| && OccursOnce(txns, id)
    ensures Copies(Export(remote, Known(None), txns, replies).remote, id)
         == Copies(remote, id)
            + if exists i :: 0 <= i < |txns| && Sends(txns[i], replies[i], id) then 1 else 0
  {
    ExportCopies(remote, Known(None), txns, replies, id);
    SentIff(txns, replies, id);
  }

  lemma {:induction false} ExportRecognisable(remote: seq<RemoteTx>, existing: map<string, string>, txns: seq<Tx>,
                                              replies: seq<Reply>, id: string)
    requires |replies| == |txns| && !HasMark(id) && Recognisable(remote, id)
    ensures Recognisable(Export(remote, existing, txns, replies).remote, id)
  {
    if txns != [] {
      var n := |txns| - 1;
      ExportRecognisable(remote, existing, txns[..n], replies[..n], id);
      ParseInvertsNotes(txns[n].txType, txns[n].sourceID);
    }
  }

  /** A batch whose dedup query found the row, if it was there, adds no second copy of it, whatever the other ids. */
  lemma BatchKeepsAtMostOnce(remote: seq<RemoteTx>, page: Option<seq<RemoteTx>>, txns: seq<Tx>, replies: seq<Reply>,
                             id: string)
    requires |replies| == |txns| && Complete(page, remote, id) && OccursOnce(txns, id) && !HasMark(id)
    requires Recognisable(remote, id) && Copies(remote, id) <= 1
    ensures var b := Export(remote, Known(page), txns, replies);
      Recognisable(b.remote, id) && Copies(b.remote, id) <= 1
  {
    ExportRecognisable(remote, Known(page), txns, replies, id);
    ExportCopies(remote, Known(page), txns, replies, id);
    SentIff(txns, replies, id);
    if Copies(remote, id) > 0 {
      CopiesNeedOrigin(remote, id);
      var t :| t in remote && t.origin == Some(id);
      assert t in page.value && ParseNote(t.notes) == Some(id);
      ExistingFinds(page.value, id);
    }
  }

  // ----- runs -----

  /**
    One thing that can happen. Sync is a batch by any caller holding the mutex, over any list
    of rows however stale; a process that dies after some creates is a batch over the rows it
    reached, with no marks after it. Outside is anybody else's change of the account.
   */
  datatype Action =
    | Sync(page: Option<seq<RemoteTx>>, txns: seq<Tx>, replies: seq<Reply>)
    | Outside(after: seq<RemoteTx>)

  predicate WellFormed(a: Action) {
    a.Sync? ==> |a.replies| == |a.txns|
  }

  /** What the run must grant one row: complete dedup answers, one occurrence a batch, and notes left alone. */
  ghost predicate Allowed(remote: seq<RemoteTx>, a: Action, id: string) {
    match a
    case Sync(page, txns, replies) => Complete(page, remote, id) && OccursOnce(txns, id)
    case Outside(after) => Recognisable(after, id) && Copies(after, id) <= Copies(remote, id)
  }

  function Apply(remote: seq<RemoteTx>, a: Action): seq<RemoteTx>
    requires WellFormed(a)
  {
    match a
    case Sync(page, txns, replies) => Export(remote, Known(page), txns, replies).remote
    case Outside(after) => after
  }

  ghost predicate IsRun(states: seq<seq<RemoteTx>>, actions: seq<Action>) {
    && |states| == |actions| + 1 && states[0] == []
    && forall n :: 0 <= n < |actions| ==> WellFormed(actions[n]) && states[n + 1] == Apply(states[n], actions[n])
  }

  ghost predicate AllAllowed(states: seq<seq<RemoteTx>>, actions: seq<Action>, id: string)
    requires IsRun(states, actions)
  {
    forall n :: 0 <= n < |actions| ==> Allowed(states[n], actions[n], id)
  }

  /** Over every run, a row whose id can be read back has at most one Monarch transaction, whatever the other ids. */
  lemma {:induction false} AtMostOnceExport(states: seq<seq<RemoteTx>>, actions: seq<Action>, n: nat, id: string)
    requires IsRun(states, actions) && AllAllowed(states, actions, id) && n < |states| && !HasMark(id)
    ensures Recognisable(states[n], id) && Copies(states[n], id) <= 1
  {
    if n > 0 {
      AtMostOnceExport(states, actions, n - 1, id);
      assert Allowed(states[n - 1], actions[n - 1], id);
      match actions[n - 1] {
        case Sync(page, txns, replies) => BatchKeepsAtMostOnce(states[n - 1], page, txns, replies, id);
        case Outside(after) =>
      }
    }
  }

  // ----- exactly when a re-export is recognised -----

  /**
    Exporting the same row twice, with every create accepted and every dedup query complete,
    leaves one copy exactly when the row's id has no "] " in it.
   */
  lemma ReexportIsRecognised(remote: seq<RemoteTx>, tx: Tx, first: string, second: string)
    requires !BelowCent(tx) && Copies(remote, tx.sourceID) == 0
    requires forall t :: t in remote ==> ParseNote(t.notes) != Some(tx.sourceID)
    ensures var once := Export(remote, ExistingOf(remote), [tx], [Created(first)]).remote;
      var twice := Export(once, ExistingOf(once), [tx], [Created(second)]).remote;
      && Copies(once, tx.sourceID) == 1
      && (Copies(twice, tx.sourceID) == 1 <==> !HasMark(tx.sourceID))
  {
    var id := tx.sourceID;
    var t := RemoteTx(first, NotesFor(tx.txType, id), Some(id));
    ExistingFinds(remote, id);
    SingleExport(remote, ExistingOf(remote), tx, first);
    var once := Export(remote, ExistingOf(remote), [tx], [Created(first)]).remote;
    assert once == remote + [t];
    CopiesSnoc(remote, t, id);
    ParseInvertsNotes(tx.txType, id);
    ExistingFinds(once, id);
    assert t in once;
    SingleExport(once, ExistingOf(once), tx, second);
    CopiesSnoc(once, RemoteTx(second, NotesFor(tx.txType, id), Some(id)), id);
  }

  lemma SingleExport(remote: seq<RemoteTx>, existing: map<string, string>, tx: Tx, newId: string)
    requires !BelowCent(tx)
    ensures Export(remote, existing, [tx], [Created(newId)]).remote
         == if tx.sourceID in existing then remote
            else remote + [RemoteTx(newId, NotesFor(tx.txType, tx.sourceID), Some(tx.sourceID))]
  {
    assert [tx][..0] == [] && [Created(newId)][..0] == [];
    assert Export(remote, existing, [], []) == Batch(remote, map[], Counts(0, 0, 0));
  }

  // ----- one row, and the counters, in plain terms -----

  /** The row is worth a cent or more, either way. */
  predicate Matters(tx: Tx) {
    tx.amountUSD >= 0.01 || tx.amountUSD <= -0.01
  }

  /**
    A row of less than a cent, either way, is skipped: nothing is sent and nothing reported. A row of
    a cent or more, either way, is reported under the transaction the dedup query knew; if it knew
    none, a create is sent for it, with its type and id in the note, and reported when it succeeds.
   */
  lemma OneRowExactly(b: Batch, existing: map<string, string>, tx: Tx, reply: Reply)
    ensures var b' := ExportOne(b, existing, tx, reply);
      var made := (id: string) => RemoteTx(id, "[" + tx.txType + "] " + tx.sourceID, Some(tx.sourceID));
      if !Matters(tx) then
        b'.remote == b.remote && b'.synced == b.synced
      else if tx.sourceID in existing then
        b'.remote == b.remote && b'.synced == b.synced[tx.sourceID := existing[tx.sourceID]]
      else match reply
        case Created(id) => b'.remote == b.remote + [made(id)] && b'.synced == b.synced[tx.sourceID := id]
        case CreatedButFailed(id) => b'.remote == b.remote + [made(id)] && b'.synced == b.synced
        case Refused => b'.remote == b.remote && b'.synced == b.synced
  {
  }

  /** How many rows satisfy a condition, given what becomes of their creates. */
  function CountOf(txns: seq<Tx>, replies: seq<Reply>, p: (Tx, Reply) -> bool): nat
    requires |replies| == |txns|
  {
    if txns == [] then 0
    else
      var n := |txns| - 1;
      CountOf(txns[..n], replies[..n], p) + (if p(txns[n], replies[n]) then 1 else 0)
  }

  function IsCreated(existing: map<string, string>): (Tx, Reply) -> bool {
    (tx: Tx, reply: Reply) =>
      Matters(tx) && tx.sourceID !in existing && reply.Created?
  }

  function IsError(existing: map<string, string>): (Tx, Reply) -> bool {
    (tx: Tx, reply: Reply) =>
      Matters(tx) && tx.sourceID !in existing && !reply.Created?
  }

  function IsSkipped(existing: map<string, string>): (Tx, Reply) -> bool {
    (tx: Tx, _: Reply) => !Matters(tx) || tx.sourceID in existing
  }

  /** Created counts the accepted creates, errors those that reported failure, skipped all other rows. */
  lemma {:induction false} CountersExactly(remote: seq<RemoteTx>, existing: map<string, string>, txns: seq<Tx>,
                                           replies: seq<Reply>)
    requires |replies| == |txns|
    ensures Export(remote, existing, txns, replies).counts
         == Counts(CountOf(txns, replies, IsCreated(existing)), CountOf(txns, replies, IsSkipped(existing)),
                   CountOf(txns, replies, IsError(existing)))
  {
    if txns != [] {
      CountersExactly(remote, existing, txns[..|txns| - 1], replies[..|txns| - 1]);
    }
  }

  /** The row carries the id, matters, and is known to Monarch or accepted by it. */
  predicate Reported(existing: map<string, string>, tx: Tx, reply: Reply, id: string) {
    tx.sourceID == id && Matters(tx) && (id in existing || reply.Created?)
  }

  /** Exactly which ids a batch reports synced. */
  lemma {:induction false} SyncedExactly(remote: seq<RemoteTx>, existing: map<string, string>, txns: seq<Tx>,
                                         replies: seq<Reply>, id: string)
    requires |replies| == |txns|
    ensures id in Export(remote, existing, txns, replies).synced
       <==> exists i :: 0 <= i < |txns| && Reported(existing, txns[i], replies[i], id)
  {
    if txns != [] {
      var n := |txns| - 1;
      SyncedExactly(remote, existing, txns[..n], replies[..n], id);
      if i :| 0 <= i < |txns| && Reported(existing, txns[i], replies[i], id) {
        assert i < n ==> Reported(existing, txns[..n][i], replies[..n][i], id);
      }
      if i :| 0 <= i < n && Reported(existing, txns[..n][i], replies[..n][i], id) {
        assert Reported(existing, txns[i], replies[i], id);
      }
    }
  }

  /** The creates that reach Monarch, in plain terms. */
  lemma SendsExactly(tx: Tx, reply: Reply, id: string)
    ensures Sends(tx, reply, id)
       <==> tx.sourceID == id && Matters(tx) && !reply.Refused?
  {
  }

  // ----- completeness of a cycle -----

  lemma {:induction false} RemoteGrows(remote: seq<RemoteTx>, existing: map<string, string>, txns: seq<Tx>,
                                       replies: seq<Reply>)
    requires |replies| == |txns|
    ensures remote <= Export(remote, existing, txns, replies).remote
  {
    if txns != [] {
      var n := |txns| - 1;
      RemoteGrows(remote, existing, txns[..n], replies[..n]);
    }
  }

  /** Monarch holds, under that id, a transaction whose note reads as the row's id. */
  ghost predicate HeldBy(remote: seq<RemoteTx>, sourceID: string, id: string) {
    exists t :: t in remote && t.id == id && ParseNote(t.notes) == Some(sourceID)
  }

  /** Monarch holds, under that id, a transaction created for the row. */
  ghost predicate MadeFor(remote: seq<RemoteTx>, sourceID: string, id: string) {
    exists t :: t in remote && t.id == id && t.origin == Some(sourceID)
  }

  /** No note reads as the id of a row that its transaction was not created for. */
  ghost predicate NoImpostors(remote: seq<RemoteTx>) {
    forall t :: t in remote && ParseNote(t.notes).Some? ==> t.origin == ParseNote(t.notes)
  }

  /** The counters cover the batch; only its rows are reported, and without errors all that matter are. */
  lemma {:induction false} BatchAccounts(remote: seq<RemoteTx>, existing: map<string, string>, txns: seq<Tx>,
                                         replies: seq<Reply>)
    requires |replies| == |txns|
    ensures var b := Export(remote, existing, txns, replies);
      && b.counts.created + b.counts.skipped + b.counts.errors == |txns|
      && (forall s :: s in b.synced ==> exists i :: 0 <= i < |txns| && txns[i].sourceID == s)
      && (b.counts.errors == 0 ==>
           forall i :: 0 <= i < |txns| && Matters(txns[i]) ==> txns[i].sourceID in b.synced)
  {
    if txns != [] {
      var n := |txns| - 1;
      var b := Export(remote, existing, txns[..n], replies[..n]);
      BatchAccounts(remote, existing, txns[..n], replies[..n]);
      forall s | s in b.synced
        ensures exists i :: 0 <= i < |txns| && txns[i].sourceID == s
      {
        var i :| 0 <= i < n && txns[..n][i].sourceID == s;
        assert txns[i].sourceID == s;
      }
      assert txns[n].sourceID == txns[n].sourceID;
    }
  }

  ghost predicate AllHeld(b: Batch) {
    forall s: string {:trigger b.synced[s]} {:trigger s in b.synced} :: s in b.synced ==>
      HeldBy(b.remote, s, b.synced[s])
  }

  ghost predicate AllMade(b: Batch) {
    forall s: string {:trigger b.synced[s]} {:trigger s in b.synced} :: s in b.synced ==>
      MadeFor(b.remote, s, b.synced[s])
  }

  lemma LandedGrows(remote: seq<RemoteTx>, tx: Tx, reply: Reply)
    ensures remote <= Landed(remote, tx, reply)
  {
  }

  lemma HeldByMore(remote: seq<RemoteTx>, more: seq<RemoteTx>, sourceID: string, id: string)
    requires HeldBy(remote, sourceID, id) && remote <= more
    ensures HeldBy(more, sourceID, id)
  {
    var t :| t in remote && t.id == id && ParseNote(t.notes) == Some(sourceID);
    assert t in more;
  }

  /** What one row reports as synced, Monarch holds. */
  lemma RowIsHeld(remote: seq<RemoteTx>, page: seq<RemoteTx>, b: Batch, tx: Tx, reply: Reply)
    requires remote <= b.remote && !HasMark(tx.sourceID) && forall t :: t in page ==> t in remote
    requires !BelowCent(tx) && (tx.sourceID in ExistingOf(page) || reply.Created?)
    ensures var b' := ExportOne(b, ExistingOf(page), tx, reply);
      tx.sourceID in b'.synced && HeldBy(b'.remote, tx.sourceID, b'.synced[tx.sourceID])
  {
    var b' := ExportOne(b, ExistingOf(page), tx, reply);
    ExistingFinds(page, tx.sourceID);
    ParseInvertsNotes(tx.txType, tx.sourceID);
    if tx.sourceID in ExistingOf(page) {
      var t :| t in page && ParseNote(t.notes) == Some(tx.sourceID) && t.id == ExistingOf(page)[tx.sourceID];
      assert t in b'.remote;
    } else {
      assert RemoteTx(reply.id, NotesFor(tx.txType, tx.sourceID), Some(tx.sourceID)) in b'.remote;
    }
  }

  /** Every id reported as synced is in Monarch under the id reported for it. */
  lemma {:induction false} SyncedAreInMonarch(remote: seq<RemoteTx>, page: seq<RemoteTx>, txns: seq<Tx>,
                                              replies: seq<Reply>)
    requires |replies| == |txns| && CleanIds(txns)
    requires forall t :: t in page ==> t in remote
    ensures AllHeld(Export(remote, ExistingOf(page), txns, replies))
  {
    if txns != [] {
      var n := |txns| - 1;
      var existing := ExistingOf(page);
      var b := Export(remote, existing, txns[..n], replies[..n]);
      var tx := txns[n];
      var b' := ExportOne(b, existing, tx, replies[n]);
      SyncedAreInMonarch(remote, page, txns[..n], replies[..n]);
      RemoteGrows(remote, existing, txns[..n], replies[..n]);
      LandedGrows(b.remote, tx, replies[n]);
      var reported := !BelowCent(tx) && (tx.sourceID in existing || replies[n].Created?);
      if reported {
        RowIsHeld(remote, page, b, tx, replies[n]);
      }
      forall s | s in b'.synced
        ensures HeldBy(b'.remote, s, b'.synced[s])
      {
        if !(reported && s == tx.sourceID) {
          assert s in b.synced && b'.synced[s] == b.synced[s];
          HeldByMore(b.remote, b'.remote, s, b.synced[s]);
        }
      }
    }
  }

  /** Rows whose ids can be read back leave no impostors. */
  lemma {:induction false} ExportMakesNoImpostors(remote: seq<RemoteTx>, existing: map<string, string>, txns: seq<Tx>,
                                                  replies: seq<Reply>)
    requires |replies| == |txns| && CleanIds(txns) && NoImpostors(remote)
    ensures NoImpostors(Export(remote, existing, txns, replies).remote)
  {
    if txns != [] {
      var n := |txns| - 1;
      ExportMakesNoImpostors(remote, existing, txns[..n], replies[..n]);
      ParseInvertsNotes(txns[n].txType, txns[n].sourceID);
    }
  }

  /** Without impostors, every id reported as synced names a transaction created for that row. */
  lemma SyncedWereMade(remote: seq<RemoteTx>, page: seq<RemoteTx>, txns: seq<Tx>, replies: seq<Reply>)
    requires |replies| == |txns| && CleanIds(txns) && NoImpostors(remote)
    requires forall t :: t in page ==> t in remote
    ensures AllMade(Export(remote, ExistingOf(page), txns, replies))
  {
    var b := Export(remote, ExistingOf(page), txns, replies);
    SyncedAreInMonarch(remote, page, txns, replies);
    ExportMakesNoImpostors(remote, ExistingOf(page), txns, replies);
    forall s | s in b.synced
      ensures MadeFor(b.remote, s, b.synced[s])
    {
      assert HeldBy(b.remote, s, b.synced[s]);
    }
  }

  /**
    Over every run of batches whose ids can be read back, with nobody else writing such notes, there
    are no impostors.
   */
  lemma {:induction false} RunMakesNoImpostors(states: seq<seq<RemoteTx>>, actions: seq<Action>, n: nat)
    requires IsRun(states, actions) && n < |states|
    requires forall k :: 0 <= k < |actions| ==>
      match actions[k] case Sync(_, txns, _) => CleanIds(txns) case Outside(after) => NoImpostors(after)
    ensures NoImpostors(states[n])
  {
    if n > 0 {
      RunMakesNoImpostors(states, actions, n - 1);
      match actions[n - 1] {
        case Sync(page, txns, replies) => ExportMakesNoImpostors(states[n - 1], Known(page), txns, replies);
        case Outside(after) =>
      }
    }
  }

  /**
    The exact condition: a row not yet in Monarch, given a complete dedup answer and a willing
    server, is always reported synced without error, and is created exactly when no note there
    already reads as its id.
   */
  lemma CreatedUnlessImpersonated(remote: seq<RemoteTx>, tx: Tx, newId: string)
    requires !BelowCent(tx) && Copies(remote, tx.sourceID) == 0
    ensures var b := Export(remote, ExistingOf(remote), [tx], [Created(newId)]);
      && tx.sourceID in b.synced && b.counts.errors == 0
      && (Copies(b.remote, tx.sourceID) == 1 <==> forall t :: t in remote ==> ParseNote(t.notes) != Some(tx.sourceID))
      && (Copies(b.remote, tx.sourceID) == 0 <==> exists t :: t in remote && ParseNote(t.notes) == Some(tx.sourceID))
  {
    SingleExport(remote, ExistingOf(remote), tx, newId);
    ExistingFinds(remote, tx.sourceID);
    CopiesSnoc(remote, RemoteTx(newId, NotesFor(tx.txType, tx.sourceID), Some(tx.sourceID)), tx.sourceID);
    assert [tx][..0] == [] && [Created(newId)][..0] == [];
    assert Export(remote, ExistingOf(remote), [], []) == Batch(remote, map[], Counts(0, 0, 0));
  }

  /** Such an impostor: the transaction of a row whose id ends in "] " and the other row's id. */
  lemma SuffixImpersonates(first: Tx, second: Tx, prefix: string, firstId: string, newId: string)
    requires first.sourceID == prefix + MARK + second.sourceID
    requires !BelowCent(first) && !BelowCent(second) && !HasMark(second.sourceID)
    ensures var once := Export([], map[], [first], [Created(firstId)]).remote;
      var b := Export(once, ExistingOf(once), [second], [Created(newId)]);
      && b.synced == map[second.sourceID := firstId] && b.counts == Counts(0, 1, 0)
      && Copies(b.remote, second.sourceID) == 0
  {
    var t := RemoteTx(firstId, NotesFor(first.txType, first.sourceID), Some(first.sourceID));
    var once := Export([], map[], [first], [Created(firstId)]).remote;
    SingleExport([], map[], first, firstId);
    assert once == [] + [t];
    assert NotesFor(first.txType, first.sourceID) == NotesFor(first.txType + MARK + prefix, second.sourceID);
    ParseInvertsNotes(first.txType + MARK + prefix, second.sourceID);
    assert |first.sourceID| > |second.sourceID|;
    CopiesSnoc([], t, second.sourceID);
    CreatedUnlessImpersonated(once, second, newId);
    assert [t][..0] == [] && ExistingOf([]) == map[];
    assert ExistingOf([t]) == map[second.sourceID := firstId];
    assert [second][..0] == [] && [Created(newId)][..0] == [];
    assert Export(once, ExistingOf(once), [], []) == Batch(once, map[], Counts(0, 0, 0));
  }

  // ----- the driver -----

  predicate Selected(tx: Tx, types: seq<string>, sources: seq<string>) {
    tx.txType in types && (sources == [] || tx.source in sources)
  }

  /** Rows of the chosen types and sources that are not marked yet, in the order of the view. */
  function Unsynced(rows: seq<Tx>, types: seq<string>, sources: seq<string>, marked: map<string, string>): seq<Tx> {
    if rows == [] then []
    else
      var rest := Unsynced(rows[..|rows| - 1], types, sources, marked);
      var tx := rows[|rows| - 1];
      if Selected(tx, types, sources) && tx.sourceID !in marked then rest + [tx] else rest
  }

  lemma {:induction false} UnsyncedIs(rows: seq<Tx>, types: seq<string>, sources: seq<string>,
                                      marked: map<string, string>, tx: Tx)
    ensures tx in Unsynced(rows, types, sources, marked)
       <==> tx in rows && tx.txType in types && (sources == [] || tx.source in sources) && tx.sourceID !in marked
  {
    if rows != [] {
      var n := |rows| - 1;
      assert rows == rows[..n] + [rows[n]];
      UnsyncedIs(rows[..n], types, sources, marked, tx);
    }
  }

  /** The local table monarch_tx_sync. */
  class SyncTable {
    var marked: map<string, string>

    constructor ()
      ensures marked == map[]
    {
      marked := map[];
    }

    /** INSERT OR IGNORE: a row already marked keeps its transaction. */
    method MarkTransactionSynced(sourceID: string, monarchTxID: string, fails: bool)
      modifies this
      ensures marked == if fails || sourceID in old(marked) then old(marked) else old(marked)[sourceID := monarchTxID]
    {
      if !fails && sourceID !in marked {
        marked := marked[sourceID := monarchTxID];
      }
    }

    method MarkAll(synced: map<string, string>, failing: set<string>)
      modifies this
      ensures marked == (synced - failing) + old(marked)
    {
      ghost var was := marked;
      var left := synced.Keys;
      while left != {}
        invariant left <= synced.Keys
        invariant forall s :: s in marked <==> s in was || (s in synced && s !in failing && s !in left)
        invariant forall s :: s in marked ==> marked[s] == if s in was then was[s] else synced[s]
        decreases |left|
      {
        var s :| s in left;
        MarkTransactionSynced(s, synced[s], s in failing);
        left := left - {s};
      }
      MarkedExactly(marked, was, synced, failing);
    }
  }

  lemma MarkedExactly(marked: map<string, string>, was: map<string, string>, synced: map<string, string>,
                      failing: set<string>)
    requires forall s :: s in marked <==> s in was || (s in synced && s !in failing)
    requires forall s :: s in marked ==> marked[s] == if s in was then was[s] else synced[s]
    ensures marked == (synced - failing) + was
  {
  }

  /** One export cycle: list, sync, mark. Nothing happens when no type is chosen. */
  method SyncMonarchTransactions(server: Monarch, table: SyncTable, rows: seq<Tx>, types: seq<string>,
                                 sources: seq<string>,
                                 page: Option<seq<RemoteTx>>, replies: seq<Reply>, failing: set<string>)
    returns (result: Counts)
    requires server as object != table
    requires |replies| == |Unsynced(rows, types, sources, table.marked)|
    modifies server, table
    ensures var txns := Unsynced(rows, types, sources, old(table.marked));
      var b := Export(old(server.txns), Known(page), txns, replies);
      && server.txns == b.remote && result == b.counts
      && table.marked == (b.synced - failing) + old(table.marked)
  {
    var txns := Unsynced(rows, types, sources, table.marked);
    var synced;
    result, synced := SyncTransactions(server, page, txns, replies);
    table.MarkAll(synced, failing);
  }

  /**
    After a cycle whose dedup answer is complete and in which no create and no mark failed, every
    chosen row is either marked or worth less than a cent, and every new mark names a transaction
    whose note reads as that row's id: one created for that row, unless there were impostors.
   */
  lemma CycleIsComplete(remote: seq<RemoteTx>, rows: seq<Tx>, types: seq<string>, sources: seq<string>,
                        marked: map<string, string>, replies: seq<Reply>)
    requires |replies| == |Unsynced(rows, types, sources, marked)| && CleanIds(rows)
    ensures var txns := Unsynced(rows, types, sources, marked);
      var b := Export(remote, ExistingOf(remote), txns, replies);
      var marked' := b.synced + marked;
      && (forall s :: s in marked' && s !in marked ==> HeldBy(b.remote, s, marked'[s]))
      && (NoImpostors(remote) ==> forall s :: s in marked' && s !in marked ==> MadeFor(b.remote, s, marked'[s]))
      && (b.counts.errors == 0 ==>
           forall tx :: tx in Unsynced(rows, types, sources, marked') ==> !Matters(tx))
  {
    var txns := Unsynced(rows, types, sources, marked);
    var b := Export(remote, ExistingOf(remote), txns, replies);
    var marked' := b.synced + marked;
    forall i | 0 <= i < |txns|
      ensures !HasMark(txns[i].sourceID)
    {
      UnsyncedIs(rows, types, sources, marked, txns[i]);
      var k :| 0 <= k < |rows| && rows[k] == txns[i];
    }
    SyncedAreInMonarch(remote, remote, txns, replies);
    if NoImpostors(remote) {
      SyncedWereMade(remote, remote, txns, replies);
    }
    BatchAccounts(remote, ExistingOf(remote), txns, replies);
    forall tx | b.counts.errors == 0 && tx in Unsynced(rows, types, sources, marked')
      ensures !Matters(tx)
    {
      UnsyncedIs(rows, types, sources, marked', tx);
      UnsyncedIs(rows, types, sources, marked, tx);
      var i :| 0 <= i < |txns| && txns[i] == tx;
    }
  }
}
