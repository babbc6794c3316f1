/** The offline write queue: entries written while offline are kept, in
    order, under one storage key, and replayed to the server later. The
    stored JSON text is abstracted to the list it encodes, or to
    `Unreadable` when it does not parse as a list. */
module OfflineQueue {
  import opened Common

  /** The storage key the queue lives under. */
  const OfflineEntriesKey: string := "offline_journal_entries"

  /** The arguments of one `createEntry(content, mood, reflection)` call. */
  datatype Draft = Draft(content: string, mood: Option<string>, reflection: Option<string>)

  function DraftOf(e: Entry): Draft {
    Draft(e.content, e.mood, e.reflection)
  }

  /** The calls made for `entries`, one per entry, in order. */
  function Drafts(entries: seq<Entry>): (ds: seq<Draft>)
    ensures |ds| == |entries|
    ensures forall i :: 0 <= i < |entries| ==> ds[i] == DraftOf(entries[i])
  {
    if entries == [] then [] else [DraftOf(entries[0])] + Drafts(entries[1..])
  }

  /** The position of the first send that fails when the `i`-th call of a
      replay has outcome `sendOk(i)`; `|entries|` when none fails. */
  function FirstFailure(entries: seq<Entry>, sendOk: nat -> bool, from: nat): (f: nat)
    requires from <= |entries|
    ensures from <= f <= |entries|
    ensures forall i :: from <= i < f ==> sendOk(i)
    ensures f < |entries| ==> !sendOk(f)
    decreases |entries| - from
  {
    if from == |entries| || !sendOk(from) then from else FirstFailure(entries, sendOk, from + 1)
  }

  /** The calls a replay makes: every entry up to and including the first
      one whose send fails. */
  function Attempted(entries: seq<Entry>, sendOk: nat -> bool): (ds: seq<Draft>)
    ensures |ds| <= |entries|
    ensures ds == Drafts(entries[..|ds|])
    ensures (forall i :: 0 <= i < |entries| ==> sendOk(i)) || (|ds| > 0 && !sendOk(|ds| - 1))
    ensures forall i :: 0 <= i < |ds| - 1 ==> sendOk(i)
  {
    var f := FirstFailure(entries, sendOk, 0);
    if f == |entries| then Drafts(entries) else Drafts(entries[..f + 1])
  }

  class OfflineStore {
    /** The key the queue is stored under. */
    const key: string
    var slot: Slot

    constructor ()
      ensures key == OfflineEntriesKey && slot == Missing
    {
      key := OfflineEntriesKey;
      slot := Missing;
    }

    /** `saveOfflineEntry`: read the list, push the entry, write it back.
        A failed read or write, or a stored text that is not a list, is
        caught and leaves the storage as it was. */
    method SaveOfflineEntry(entry: Entry, readOk: bool, writeOk: bool)
      modifies this
      ensures readOk && writeOk && !old(slot).Unreadable? ==> slot == Stored(ListOf(old(slot)) + [entry])
      ensures !(readOk && writeOk && !old(slot).Unreadable?) ==> slot == old(slot)
    {
      if !readOk {
        return;
      }
      var existing := slot;
      if existing.Unreadable? {
        return;
      }
      var entries := if existing.Stored? then existing.entries else [];
      entries := entries + [entry];
      if writeOk {
        slot := Stored(entries);
      }
    }

    /** `syncOfflineEntries`: send the stored entries one at a time, in
        order; `sendOk(i)` is the outcome of the `i`-th send. The first
        failure ends the replay with `false` and leaves the list stored, so
        the next replay starts again from its first entry. When every send
        succeeds the key is removed. */
    method SyncOfflineEntries(readOk: bool, sendOk: nat -> bool, removeOk: bool) returns (ok: bool, sent: seq<Draft>)
      modifies this
      ensures !readOk || old(slot).Unreadable? ==> !ok && sent == [] && slot == old(slot)
      ensures readOk && old(slot).Missing? ==> ok && sent == [] && slot == Missing
      ensures readOk && old(slot).Stored? ==>
        && sent == Attempted(old(slot).entries, sendOk)
        && (ok <==> (forall i :: 0 <= i < |old(slot).entries| ==> sendOk(i)) && removeOk)
        && slot == (if ok then Missing else old(slot))
    {
      if !readOk {
        return false, [];
      }
      var offlineEntries := slot;
      if offlineEntries.Missing? {
        return true, [];
      }
      if offlineEntries.Unreadable? {
        return false, [];
      }
      var entries := offlineEntries.entries;
      sent := [];
      for k := 0 to |entries|
        invariant sent == Drafts(entries[..k])
        invariant forall i :: 0 <= i < k ==> sendOk(i)
      {
        sent := sent + [DraftOf(entries[k])];
        assert entries[..k + 1] == entries[..k] + [entries[k]];
        if !sendOk(k) {
          FailureAt(entries, sendOk, k);
          return false, sent;
        }
      }
      assert entries[..|entries|] == entries;
      AllSent(entries, sendOk);
      if !removeOk {
        return false, sent;
      }
      slot := Missing;
      return true, sent;
    }
  }

  /** A replay whose `k`-th send is its first failure attempts exactly the
      first `k + 1` entries. */
  lemma FailureAt(entries: seq<Entry>, sendOk: nat -> bool, k: nat)
    requires k < |entries| && !sendOk(k)
    requires forall i :: 0 <= i < k ==> sendOk(i)
    ensures Attempted(entries, sendOk) == Drafts(entries[..k + 1])
    ensures !(forall i :: 0 <= i < |entries| ==> sendOk(i))
  {
    assert FirstFailure(entries, sendOk, 0) == k;
  }

  /** A replay that fails nowhere attempts every entry. */
  lemma AllSent(entries: seq<Entry>, sendOk: nat -> bool)
    requires forall i :: 0 <= i < |entries| ==> sendOk(i)
    ensures Attempted(entries, sendOk) == Drafts(entries)
  {
    assert FirstFailure(entries, sendOk, 0) == |entries|;
  }
}
