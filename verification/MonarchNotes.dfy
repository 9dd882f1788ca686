/**
  The note that ties a Monarch transaction to its source row (internal/monarch/sync.go):
  written as "[type] id", read back from after the last "] ".
 */
module MonarchNotes {
  import opened Options

  const MARK := "] "

  function NotesFor(txType: string, sourceID: string): string {
    "[" + txType + MARK + sourceID
  }

  predicate MarkAt(s: string, i: int) {
    0 <= i && i + 1 < |s| && s[i] == ']' && s[i + 1] == ' '
  }

  predicate HasMark(s: string) {
    exists i :: 0 <= i < |s| && MarkAt(s, i)
  }

  /** strings.LastIndex(s, "] ") */
  function LastMark(s: string, from: nat): (i: int)
    requires from <= |s|
    ensures -1 <= i < from
    ensures i >= 0 ==> MarkAt(s, i)
    ensures forall k :: i < k < from ==> !MarkAt(s, k)
  {
    if from == 0 then -1
    else if MarkAt(s, from - 1) then from - 1
    else LastMark(s, from - 1)
  }

  function ParseNote(notes: string): Option<string> {
    if notes == "" then None
    else
      var i := LastMark(notes, |notes|);
      if i >= 0 then Some(notes[i + 2..]) else None
  }

  /** Reading a note gives back the id it was written for exactly when the id has no "] " in it. */
  lemma ParseInvertsNotes(txType: string, sourceID: string)
    ensures ParseNote(NotesFor(txType, sourceID)) == Some(sourceID) <==> !HasMark(sourceID)
  {
    var notes := NotesFor(txType, sourceID);
    var at := 1 + |txType|;
    assert MarkAt(notes, at);
    var i := LastMark(notes, |notes|);
    assert i >= at;
    assert notes[at + 2..] == sourceID;
    assert notes[at + 1] == ' ';
    if i > at {
      assert MarkAt(sourceID, i - at - 2);
    }
    if k :| 0 <= k < |sourceID| && MarkAt(sourceID, k) {
      assert MarkAt(notes, at + 2 + k);
      assert |notes[i + 2..]| < |sourceID|;
    }
  }
}
