/** The two screens that write the local journal: the journal screen, which
    also shows the last entry, and the new-entry screen, which navigates back
    to the journal once the entry is stored. Both read, prepend to and write
    back the one list stored under `journal_entries`. The clock is passed
    in: `Date.now()` is read twice per save, once for the id and once for
    the timestamp, and the two readings are separate parameters. */
module Journal {
  import opened Common

  /** The storage key both screens use. */
  const JournalEntriesKey: string := "journal_entries"

  /** The route the new-entry screen replaces itself with after a save. */
  const JournalRoute: string := "/journal"

  /** The device storage under `journal_entries`, shared by both screens. */
  class JournalStorage {
    /** The key the list is stored under. */
    const key: string
    var slot: Slot

    constructor ()
      ensures key == JournalEntriesKey && slot == Missing
    {
      key := JournalEntriesKey;
      slot := Missing;
    }
  }

  /** The entry a save builds: the id is the decimal text of the first clock
      reading, the timestamp the second reading (milliseconds), the content
      the input as typed, and there is no mood and no reflection. */
  function NewEntry(input: string, idNow: nat, tsNow: nat): (e: Entry)
    ensures e.content == input && e.timestamp == tsNow
    ensures e.mood == None && e.reflection == None && !HasMood(e)
    ensures forall i :: 0 <= i < |e.id| ==> IsDigit(e.id[i])
    ensures ParseDecimal(e.id) == idNow
  {
    ParseDecimalString(idNow);
    Entry(DecimalString(idNow), input, tsNow, None, None)
  }

  /** When both clock readings agree, the id reads back as the timestamp. */
  lemma IdIsTimestamp(input: string, now: nat)
    ensures ParseDecimal(NewEntry(input, now, now).id) == NewEntry(input, now, now).timestamp
  {
  }

  /** Two saves at different times get different ids. */
  lemma IdsDistinct(a: string, b: string, idA: nat, idB: nat, tsA: nat, tsB: nat)
    requires idA != idB
    ensures NewEntry(a, idA, tsA).id != NewEntry(b, idB, tsB).id
  {
    if DecimalString(idA) == DecimalString(idB) {
      DecimalStringInjective(idA, idB);
    }
  }

  /** The input the `!entry.trim()` guard lets through: exactly the inputs
      not made of whitespace alone. */
  predicate Submittable(input: string)
    ensures Submittable(input) <==> !AllSpace(input)
  {
    TrimEmptyIffAllSpace(input);
    Trim(input) != ""
  }

  /** What `loadLastEntry` shows: the head of a non-empty stored list. */
  function Head(slot: Slot): (r: Option<Entry>)
    ensures r.Some? <==> slot.Stored? && |slot.entries| > 0
    ensures r.Some? ==> r.value == slot.entries[0]
  {
    if slot.Stored? && |slot.entries| > 0 then Some(slot.entries[0]) else None
  }

  /** The list after `unshift`: the new entry in front of the old list, a
      missing list counting as empty. */
  function Prepended(slot: Slot, e: Entry): (r: seq<Entry>)
    ensures |r| == |ListOf(slot)| + 1
    ensures r[0] == e
    ensures forall i :: 0 <= i < |ListOf(slot)| ==> r[i + 1] == ListOf(slot)[i]
  {
    [e] + ListOf(slot)
  }

  /** After a save, the head the journal screen loads is the saved entry. */
  lemma HeadAfterSave(slot: Slot, e: Entry)
    ensures Head(Stored(Prepended(slot, e))) == Some(e)
  {
  }

  class JournalScreen {
    /** The text field, `entry` in the component's state. */
    var input: string
    var lastEntry: Option<Entry>
    const storage: JournalStorage

    constructor (storage: JournalStorage)
      requires storage.key == JournalEntriesKey
      ensures input == "" && lastEntry == None && this.storage == storage
    {
      input := "";
      lastEntry := None;
      this.storage := storage;
    }

    /** `loadLastEntry`: show the head of the stored list. A missing or
        empty list, a failed read or a text that does not parse leaves
        `lastEntry` as it was. */
    method LoadLastEntry(readOk: bool)
      modifies this
      ensures input == old(input)
      ensures readOk && Head(storage.slot).Some? ==> lastEntry == Head(storage.slot)
      ensures !(readOk && Head(storage.slot).Some?) ==> lastEntry == old(lastEntry)
    {
      if !readOk {
        return;
      }
      var entries := storage.slot;
      if entries.Stored? && |entries.entries| > 0 {
        lastEntry := Some(entries.entries[0]);
      }
    }

    /** `saveEntry`: a blank input does nothing; otherwise the new entry is
        put in front of the stored list, and only once that list is written
        back is the input cleared and the entry shown as the last one. A
        failed read or write, or a stored text that does not parse, is
        caught and changes nothing. */
    method SaveEntry(idNow: nat, tsNow: nat, readOk: bool, writeOk: bool)
      modifies this, storage
      ensures var e := NewEntry(old(input), idNow, tsNow);
        Submittable(old(input)) && readOk && writeOk && !old(storage.slot).Unreadable? ==>
          storage.slot == Stored(Prepended(old(storage.slot), e)) && input == "" && lastEntry == Some(e)
      ensures !(Submittable(old(input)) && readOk && writeOk && !old(storage.slot).Unreadable?) ==>
        storage.slot == old(storage.slot) && input == old(input) && lastEntry == old(lastEntry)
    {
      if !Submittable(input) {
        return;
      }
      var newEntry := NewEntry(input, idNow, tsNow);
      if !readOk {
        return;
      }
      var existingEntries := storage.slot;
      if existingEntries.Unreadable? {
        return;
      }
      var entries := if existingEntries.Stored? then existingEntries.entries else [];
      entries := [newEntry] + entries;
      if !writeOk {
        return;
      }
      storage.slot := Stored(entries);
      input := "";
      lastEntry := Some(newEntry);
    }
  }

  class NewEntryScreen {
    /** The text field, `entry` in the component's state. */
    var input: string
    /** The route replaced to, `None` while the screen stays. */
    var navigatedTo: Option<string>
    const storage: JournalStorage

    constructor (storage: JournalStorage)
      requires storage.key == JournalEntriesKey
      ensures input == "" && navigatedTo == None && this.storage == storage
    {
      input := "";
      navigatedTo := None;
      this.storage := storage;
    }

    /** `saveEntry`: as on the journal screen, except that a stored entry
        leads to the journal route and the input is not cleared. */
    method SaveEntry(idNow: nat, tsNow: nat, readOk: bool, writeOk: bool)
      modifies this, storage
      ensures input == old(input)
      ensures var e := NewEntry(old(input), idNow, tsNow);
        Submittable(old(input)) && readOk && writeOk && !old(storage.slot).Unreadable? ==>
          storage.slot == Stored(Prepended(old(storage.slot), e)) && navigatedTo == Some(JournalRoute)
      ensures !(Submittable(old(input)) && readOk && writeOk && !old(storage.slot).Unreadable?) ==>
        storage.slot == old(storage.slot) && navigatedTo == old(navigatedTo)
    {
      if !Submittable(input) {
        return;
      }
      var newEntry := NewEntry(input, idNow, tsNow);
      if !readOk {
        return;
      }
      var existingEntries := storage.slot;
      if existingEntries.Unreadable? {
        return;
      }
      var entries := if existingEntries.Stored? then existingEntries.entries else [];
      entries := [newEntry] + entries;
      if !writeOk {
        return;
      }
      storage.slot := Stored(entries);
      navigatedTo := Some(JournalRoute);
    }
  }

  /** An entry saved on the new-entry screen is what the journal screen
      shows once it loads: both screens use the same key. */
  method SaveThenLoad(storage: JournalStorage, writer: NewEntryScreen, reader: JournalScreen, idNow: nat, tsNow: nat)
    requires writer.storage == storage && reader.storage == storage
    requires writer != reader as object
    requires Submittable(writer.input) && !storage.slot.Unreadable?
    modifies storage, writer, reader
    ensures reader.lastEntry == Some(NewEntry(old(writer.input), idNow, tsNow))
    ensures writer.navigatedTo == Some(JournalRoute)
  {
    writer.SaveEntry(idNow, tsNow, true, true);
    reader.LoadLastEntry(true);
  }

  // ---------------------------------------------------------------------------
  // Timestamp units

  const MillisPerSecond: int := 1000

  /** A millisecond clock reading as the server stores it:
      `Math.floor(ms / 1000)` seconds. */
  function SecondsOf(ms: int): int {
    ms / MillisPerSecond
  }

  /** Storing whole seconds loses nothing of the calendar day: the day of
      the stored seconds is the day of the milliseconds. */
  lemma SecondsKeepDay(ms: int, offset: int)
    ensures DayOf(SecondsOf(ms), offset) == (ms + MillisPerSecond * offset) / (MillisPerSecond * SecondsPerDay)
  {
  }

  /** The journal screens store milliseconds; a chart that reads such a
      timestamp as seconds puts any entry from the second day of 1970 on
      far later than its own day, a thousand times as many days after
      the epoch. */
  lemma MillisecondsReadAsSeconds(ms: int)
    requires ms >= MillisPerSecond * SecondsPerDay
    ensures DayOf(ms, 0) >= MillisPerSecond * DayOf(SecondsOf(ms), 0) > DayOf(SecondsOf(ms), 0)
  {
  }
}
