/** The streak chart: for every mood, the longest run of consecutive calendar
    days on which that mood is the day's mood. A day's mood is the mood of
    the last entry recorded on that day. Timestamps are seconds; the local
    calendar day of a timestamp is abstracted to `(ts + offset) / 86400`
    with `offset` the local zone's offset in seconds. */
module MoodStreak {
  import opened Common
  import opened Sorting

  /** One key/value pair of the per-day dictionary. */
  datatype DayMood = DayMood(day: int, mood: Option<string>)

  /** One row of the chart: the mood's label and its longest streak in days. */
  datatype MoodStreak = MoodStreak(mood: string, streak: nat)

  function DayKey(dm: DayMood): int {
    dm.day
  }

  // ---------------------------------------------------------------------------
  // Specification: the mood that each calendar day keeps

  /** The mood the last entry of `day` carries, `None` when no entry falls on `day`. */
  function LastMoodOn(entries: seq<Entry>, offset: int, day: int): Option<Option<string>> {
    if entries == [] then None
    else
      var e := entries[|entries| - 1];
      if DayOf(e.timestamp, offset) == day then Some(e.mood)
      else LastMoodOn(entries[..|entries| - 1], offset, day)
  }

  /** Entry `k` is the last entry that falls on `day`. */
  ghost predicate IsLastOn(entries: seq<Entry>, offset: int, day: int, k: int) {
    && 0 <= k < |entries| && DayOf(entries[k].timestamp, offset) == day
    && forall k' :: k < k' < |entries| ==> DayOf(entries[k'].timestamp, offset) != day
  }

  /** The last entry on `day` decides the day's mood. */
  lemma {:induction false} LastMoodOnOfLast(entries: seq<Entry>, offset: int, day: int, k: int)
    requires IsLastOn(entries, offset, day, k)
    ensures LastMoodOn(entries, offset, day) == Some(entries[k].mood)
  {
    var n := |entries| - 1;
    if k < n {
      assert IsLastOn(entries[..n], offset, day, k);
      LastMoodOnOfLast(entries[..n], offset, day, k);
    }
  }

  /** A day that keeps a mood has a last entry, which carries that mood. */
  lemma {:induction false} LastMoodOnWitness(entries: seq<Entry>, offset: int, day: int)
    requires LastMoodOn(entries, offset, day).Some?
    ensures exists k :: IsLastOn(entries, offset, day, k) && entries[k].mood == LastMoodOn(entries, offset, day).value
  {
    var n := |entries| - 1;
    if DayOf(entries[n].timestamp, offset) == day {
      assert IsLastOn(entries, offset, day, n);
    } else {
      var p := entries[..n];
      LastMoodOnWitness(p, offset, day);
      var k :| IsLastOn(p, offset, day, k) && p[k].mood == LastMoodOn(p, offset, day).value;
      assert entries[k] == p[k];
      forall k' | k < k' < |entries| ensures DayOf(entries[k'].timestamp, offset) != day {
        if k' < n {
          assert entries[k'] == p[k'];
        }
      }
      assert IsLastOn(entries, offset, day, k);
    }
  }

  /** A day keeps a mood exactly when some entry on that day carries it and
      no later entry falls on the same day. */
  lemma LastMoodOnMeans(entries: seq<Entry>, offset: int, day: int, mood: Option<string>)
    ensures LastMoodOn(entries, offset, day) == Some(mood) <==>
      exists k :: IsLastOn(entries, offset, day, k) && entries[k].mood == mood
  {
    if LastMoodOn(entries, offset, day) == Some(mood) {
      LastMoodOnWitness(entries, offset, day);
    }
    forall k | IsLastOn(entries, offset, day, k) && entries[k].mood == mood
      ensures LastMoodOn(entries, offset, day) == Some(mood)
    {
      LastMoodOnOfLast(entries, offset, day, k);
    }
  }

  /** A day has a mood exactly when some entry falls on it. */
  lemma {:induction false} LastMoodOnSome(entries: seq<Entry>, offset: int, day: int)
    ensures LastMoodOn(entries, offset, day).Some? <==>
      exists k :: 0 <= k < |entries| && DayOf(entries[k].timestamp, offset) == day
  {
    if entries != [] {
      var n := |entries| - 1;
      LastMoodOnSome(entries[..n], offset, day);
      if LastMoodOn(entries, offset, day).Some? && DayOf(entries[n].timestamp, offset) != day {
        var k :| 0 <= k < n && DayOf(entries[..n][k].timestamp, offset) == day;
        assert entries[k] == entries[..n][k];
      }
    }
  }

  /** The calendar days on which some entry falls. */
  function DaysOf(entries: seq<Entry>, offset: int): set<int> {
    set k | 0 <= k < |entries| :: DayOf(entries[k].timestamp, offset)
  }

  // ---------------------------------------------------------------------------
  // Specification: streaks as runs of calendar days

  /** The `len` calendar days from `start` on all keep `mood`. */
  ghost predicate CalendarRun(entries: seq<Entry>, offset: int, mood: Option<string>, start: int, len: nat) {
    forall d :: start <= d < start + len ==> LastMoodOn(entries, offset, d) == Some(mood)
  }

  /** `s` is the length of the longest calendar run of `mood`. */
  ghost predicate IsLongestStreak(entries: seq<Entry>, offset: int, mood: Option<string>, s: nat) {
    && (exists start :: CalendarRun(entries, offset, mood, start, s))
    && (forall start: int, len: nat :: CalendarRun(entries, offset, mood, start, len) ==> len <= s)
  }

  /** A streak is positive exactly when some day keeps the mood; a mood that
      later entries overwrite on every one of its days scores 0. */
  lemma StreakPositiveIffKept(entries: seq<Entry>, offset: int, mood: Option<string>, s: nat)
    requires IsLongestStreak(entries, offset, mood, s)
    ensures s >= 1 <==> exists d :: LastMoodOn(entries, offset, d) == Some(mood)
  {
    if s >= 1 {
      var start :| CalendarRun(entries, offset, mood, start, s);
      assert LastMoodOn(entries, offset, start) == Some(mood);
    }
    if d :| LastMoodOn(entries, offset, d) == Some(mood) {
      assert CalendarRun(entries, offset, mood, d, 1);
    }
  }

  // ---------------------------------------------------------------------------
  // Specification: runs along the sorted list of days

  /** Positions `i..j` of `days` all carry `mood`, each day one after the previous. */
  ghost predicate ListRun(days: seq<DayMood>, mood: Option<string>, i: int, j: int) {
    && 0 <= i <= j <= |days|
    && (forall p :: i <= p < j ==> days[p].mood == mood)
    && (forall p :: i <= p < j - 1 ==> days[p + 1].day == days[p].day + 1)
  }

  /** `days` lists every day that keeps a mood, once, in ascending order, with that mood. */
  ghost predicate IsTimeline(days: seq<DayMood>, entries: seq<Entry>, offset: int) {
    && (forall i, j :: 0 <= i < j < |days| ==> days[i].day < days[j].day)
    && (forall i :: 0 <= i < |days| ==> LastMoodOn(entries, offset, days[i].day) == Some(days[i].mood))
    && (forall d :: LastMoodOn(entries, offset, d).Some? ==> exists i :: 0 <= i < |days| && days[i].day == d)
  }

  lemma {:induction false} ListRunDays(days: seq<DayMood>, mood: Option<string>, i: int, j: int, n: nat)
    requires ListRun(days, mood, i, j) && n < j - i
    ensures days[i + n].day == days[i].day + n
  {
    if n > 0 {
      ListRunDays(days, mood, i, j, n - 1);
    }
  }

  /** A run along the timeline is a run of calendar days. */
  lemma ListRunIsCalendarRun(days: seq<DayMood>, entries: seq<Entry>, offset: int, mood: Option<string>, i: int, j: int)
    requires IsTimeline(days, entries, offset) && ListRun(days, mood, i, j) && i < j
    ensures CalendarRun(entries, offset, mood, days[i].day, j - i)
  {
    var start := days[i].day;
    forall d | start <= d < start + (j - i) ensures LastMoodOn(entries, offset, d) == Some(mood) {
      ListRunDays(days, mood, i, j, d - start);
      assert days[i + (d - start)].day == d;
    }
  }

  /** Along a strictly ascending list, a smaller-or-equal day sits at a smaller-or-equal position. */
  lemma AscendingIndex(days: seq<DayMood>, a: int, b: int)
    requires forall i, j :: 0 <= i < j < |days| ==> days[i].day < days[j].day
    requires 0 <= a < |days| && 0 <= b < |days| && days[a].day <= days[b].day
    ensures a <= b
  {
  }

  /** When the day after a listed day has an entry, it is the next listed day. */
  lemma TimelineNext(days: seq<DayMood>, entries: seq<Entry>, offset: int, q: int)
    requires IsTimeline(days, entries, offset) && 0 <= q < |days|
    requires LastMoodOn(entries, offset, days[q].day + 1).Some?
    ensures q + 1 < |days| && days[q + 1].day == days[q].day + 1
  {
    var p :| 0 <= p < |days| && days[p].day == days[q].day + 1;
    AscendingIndex(days, q, p);
    assert days[q].day < days[q + 1].day;
    AscendingIndex(days, p, q + 1);
  }

  lemma {:induction false} TimelineWalk(days: seq<DayMood>, entries: seq<Entry>, offset: int, mood: Option<string>,
                                        start: int, len: nat, i: int, n: nat)
    requires IsTimeline(days, entries, offset) && CalendarRun(entries, offset, mood, start, len)
    requires 0 <= i < |days| && days[i].day == start && n < len
    ensures i + n < |days| && days[i + n].day == start + n && days[i + n].mood == mood
  {
    if n > 0 {
      TimelineWalk(days, entries, offset, mood, start, len, i, n - 1);
      assert LastMoodOn(entries, offset, start + n) == Some(mood);
      TimelineNext(days, entries, offset, i + n - 1);
    }
    assert LastMoodOn(entries, offset, start + n) == Some(mood);
  }

  /** Positions that carry `mood` on consecutive days form a run. */
  lemma StepsRun(days: seq<DayMood>, mood: Option<string>, i: int, len: nat)
    requires 0 <= i && i + len <= |days|
    requires forall p :: i <= p < i + len ==> days[p].day == days[i].day + (p - i) && days[p].mood == mood
    ensures ListRun(days, mood, i, i + len)
  {
    forall p | i <= p < i + len - 1 ensures days[p + 1].day == days[p].day + 1 {
      assert days[p + 1].day == days[i].day + (p + 1 - i);
    }
  }

  /** A run of calendar days is a run along the timeline. */
  lemma CalendarRunIsListRun(days: seq<DayMood>, entries: seq<Entry>, offset: int, mood: Option<string>, start: int, len: nat)
    requires IsTimeline(days, entries, offset) && CalendarRun(entries, offset, mood, start, len) && len > 0
    ensures exists i, j :: ListRun(days, mood, i, j) && j - i == len
  {
    assert LastMoodOn(entries, offset, start) == Some(mood);
    var i :| 0 <= i < |days| && days[i].day == start;
    TimelineWalk(days, entries, offset, mood, start, len, i, len - 1);
    forall p | i <= p < i + len ensures days[p].day == days[i].day + (p - i) && days[p].mood == mood {
      TimelineWalk(days, entries, offset, mood, start, len, i, p - i);
    }
    StepsRun(days, mood, i, len);
  }

  /** The longest run along the timeline is the longest calendar run. */
  lemma TimelineStreak(days: seq<DayMood>, entries: seq<Entry>, offset: int, mood: Option<string>, s: nat)
    requires IsTimeline(days, entries, offset)
    requires exists i, j :: ListRun(days, mood, i, j) && j - i == s
    requires forall i, j :: ListRun(days, mood, i, j) ==> j - i <= s
    ensures IsLongestStreak(entries, offset, mood, s)
    ensures s <= |days|
  {
    var i, j :| ListRun(days, mood, i, j) && j - i == s;
    if s > 0 {
      ListRunIsCalendarRun(days, entries, offset, mood, i, j);
    } else {
      assert CalendarRun(entries, offset, mood, 0, 0);
    }
    forall start: int, len: nat | CalendarRun(entries, offset, mood, start, len) ensures len <= s {
      if len > 0 {
        CalendarRunIsListRun(days, entries, offset, mood, start, len);
      }
    }
  }

  /** The timeline has one position per calendar day that has an entry. */
  lemma TimelineLength(days: seq<DayMood>, entries: seq<Entry>, offset: int)
    requires IsTimeline(days, entries, offset)
    ensures |days| == |DaysOf(entries, offset)|
  {
    var ds := set i | 0 <= i < |days| :: days[i].day;
    forall d ensures d in ds <==> d in DaysOf(entries, offset) {
      LastMoodOnSome(entries, offset, d);
      if d in DaysOf(entries, offset) {
        var k :| 0 <= k < |entries| && DayOf(entries[k].timestamp, offset) == d;
      }
    }
    assert ds == DaysOf(entries, offset);
    AscendingDaysCard(days);
  }

  lemma {:induction false} AscendingDaysCard(days: seq<DayMood>)
    requires forall i, j :: 0 <= i < j < |days| ==> days[i].day < days[j].day
    ensures |set i | 0 <= i < |days| :: days[i].day| == |days|
  {
    if days != [] {
      var n := |days| - 1;
      var p := days[..n];
      AscendingDaysCard(p);
      var sp := set i | 0 <= i < |p| :: p[i].day;
      var s := set i | 0 <= i < |days| :: days[i].day;
      assert s == sp + {days[n].day};
      assert days[n].day !in sp;
    }
  }

  // ---------------------------------------------------------------------------
  // The computation

  /** The `reduce` that writes each entry's mood under its day into a
      dictionary: a later entry overwrites an earlier one on the same day.
      `order` lists the dictionary's keys in insertion order, the order in
      which `Object.entries` reports them. */
  method GroupByDay(entries: seq<Entry>, offset: int) returns (byDate: map<int, Option<string>>, order: seq<int>)
    ensures forall d :: d in byDate <==> LastMoodOn(entries, offset, d).Some?
    ensures forall d :: d in byDate ==> LastMoodOn(entries, offset, d) == Some(byDate[d])
    ensures NoDuplicates(order)
    ensures forall d :: d in byDate ==> d in order
    ensures forall i :: 0 <= i < |order| ==> order[i] in byDate
  {
    byDate, order := map[], [];
    for k := 0 to |entries|
      invariant forall d :: d in byDate <==> LastMoodOn(entries[..k], offset, d).Some?
      invariant forall d :: d in byDate ==> LastMoodOn(entries[..k], offset, d) == Some(byDate[d])
      invariant NoDuplicates(order)
      invariant forall d :: d in byDate ==> d in order
      invariant forall i :: 0 <= i < |order| ==> order[i] in byDate
    {
      var date := DayOf(entries[k].timestamp, offset);
      if date !in byDate {
        order := order + [date];
      }
      byDate := byDate[date := entries[k].mood];
      assert entries[..k + 1][..k] == entries[..k];
    }
    assert entries[..|entries|] == entries;
  }

  /** `Object.entries` of the per-day dictionary: its key/value pairs in key order `order`. */
  function DictEntries(byDate: map<int, Option<string>>, order: seq<int>): (pairs: seq<DayMood>)
    requires forall i :: 0 <= i < |order| ==> order[i] in byDate
    ensures |pairs| == |order|
    ensures forall i :: 0 <= i < |pairs| ==> pairs[i] == DayMood(order[i], byDate[order[i]])
  {
    if order == [] then []
    else [DayMood(order[0], byDate[order[0]])] + DictEntries(byDate, order[1..])
  }

  /** A run that ends at `k + 1` and starts before `k` is a run ending at
      `k` that day `k` continues. */
  lemma RunShrink(days: seq<DayMood>, mood: Option<string>, i: int, k: int)
    requires ListRun(days, mood, i, k + 1) && i < k
    ensures ListRun(days, mood, i, k)
    ensures days[k].mood == mood && days[k].day == days[k - 1].day + 1
  {
    assert days[(k - 1) + 1].day == days[k - 1].day + 1;
  }

  /** One step of the scan: from the longest run ending at `k`, of length
      `previous`, the streak rule gives the longest run ending at `k + 1`. */
  lemma ScanStep(days: seq<DayMood>, mood: Option<string>, k: int, next: int, previous: nat, current: nat)
    requires 0 <= k < |days| && next == k + 1 && previous <= k
    requires ListRun(days, mood, k - previous, k)
    requires forall i :: ListRun(days, mood, i, k) ==> k - i <= previous
    requires days[k].mood != mood ==> current == 0
    requires days[k].mood == mood && k > 0 && days[k].day - days[k - 1].day == 1 ==> current == previous + 1
    requires days[k].mood == mood && !(k > 0 && days[k].day - days[k - 1].day == 1) ==> current == 1
    ensures current <= next
    ensures ListRun(days, mood, next - current, next)
    ensures forall i :: ListRun(days, mood, i, next) ==> next - i <= current
  {
    forall i | ListRun(days, mood, i, next) ensures next - i <= current {
      if i < k {
        RunShrink(days, mood, i, k);
      }
    }
  }

  /** The dictionary's pairs: each day once, each with the mood that day keeps,
      and every day that has an entry among them. */
  lemma DictPairs(entries: seq<Entry>, offset: int, byDate: map<int, Option<string>>, order: seq<int>)
    requires forall d :: d in byDate <==> LastMoodOn(entries, offset, d).Some?
    requires forall d :: d in byDate ==> LastMoodOn(entries, offset, d) == Some(byDate[d])
    requires NoDuplicates(order)
    requires forall d :: d in byDate ==> d in order
    requires forall i :: 0 <= i < |order| ==> order[i] in byDate
    ensures var pairs := DictEntries(byDate, order);
      && KeysDistinct(pairs, DayKey)
      && (forall x :: x in pairs ==> LastMoodOn(entries, offset, x.day) == Some(x.mood))
      && (forall d :: LastMoodOn(entries, offset, d).Some? ==> exists x :: x in pairs && x.day == d)
  {
    var pairs := DictEntries(byDate, order);
    forall d | LastMoodOn(entries, offset, d).Some? ensures exists x :: x in pairs && x.day == d {
      var p :| 0 <= p < |order| && order[p] == d;
      assert pairs[p] in pairs;
    }
  }

  /** Sorting the dictionary's pairs by day gives the timeline of the entries. */
  lemma SortedPairsTimeline(entries: seq<Entry>, offset: int, byDate: map<int, Option<string>>, order: seq<int>)
    requires forall d :: d in byDate <==> LastMoodOn(entries, offset, d).Some?
    requires forall d :: d in byDate ==> LastMoodOn(entries, offset, d) == Some(byDate[d])
    requires NoDuplicates(order)
    requires forall d :: d in byDate ==> d in order
    requires forall i :: 0 <= i < |order| ==> order[i] in byDate
    ensures IsTimeline(SortBy(DictEntries(byDate, order), DayKey), entries, offset)
  {
    var pairs := DictEntries(byDate, order);
    DictPairs(entries, offset, byDate, order);
    var days := SortBy(pairs, DayKey);
    SortByStrict(pairs, DayKey);
    SortByMembers(pairs, DayKey);
    forall d | LastMoodOn(entries, offset, d).Some? ensures exists i :: 0 <= i < |days| && days[i].day == d {
      var x :| x in pairs && x.day == d;
      assert x in days;
    }
    forall i | 0 <= i < |days| ensures LastMoodOn(entries, offset, days[i].day) == Some(days[i].mood) {
      assert days[i] in days;
    }
  }

  /** The scan over the days in ascending order for one mood: the running
      streak grows on a day of `mood` exactly one day after the previous
      listed day, restarts at 1 after a gap, and drops to 0 on a day of
      another mood. Returns the longest run. */
  method LongestStreak(days: seq<DayMood>, mood: Option<string>) returns (maxStreak: nat)
    ensures exists i, j :: ListRun(days, mood, i, j) && j - i == maxStreak
    ensures forall i, j :: ListRun(days, mood, i, j) ==> j - i <= maxStreak
  {
    maxStreak := 0;
    var currentStreak: nat := 0;
    var prevDate: Option<int> := None;
    ghost var best := 0;
    for k := 0 to |days|
      invariant prevDate == if k == 0 then None else Some(days[k - 1].day)
      invariant currentStreak <= maxStreak <= k
      invariant ListRun(days, mood, k - currentStreak, k)
      invariant forall i :: ListRun(days, mood, i, k) ==> k - i <= currentStreak
      invariant ListRun(days, mood, best, best + maxStreak) && best + maxStreak <= k
      invariant forall i, j :: ListRun(days, mood, i, j) && j <= k ==> j - i <= maxStreak
    {
      ghost var previous := currentStreak;
      var currentMood := days[k].mood;
      if currentMood == mood {
        if prevDate.Some? {
          var dayDiff := days[k].day - prevDate.value;
          if dayDiff == 1 {
            currentStreak := currentStreak + 1;
          } else {
            currentStreak := 1;
          }
        } else {
          currentStreak := 1;
        }
      } else {
        currentStreak := 0;
      }
      ghost var next := k + 1;
      ScanStep(days, mood, k, next, previous, currentStreak);
      if currentStreak > maxStreak {
        maxStreak := currentStreak;
        best := k + 1 - currentStreak;
      }
      prevDate := Some(days[k].day);
      forall i, j | ListRun(days, mood, i, j) && j <= next ensures j - i <= maxStreak {
        if j == next {
          assert next - i <= currentStreak;
        }
      }
    }
  }

  /** `mood.split(' ')[0]`: the row label. */
  function Label(mood: string): (l: string)
    ensures ' ' !in l
  {
    Split(mood, ' ')[0]
  }

  /** The label is the text before the first space (all of it when there is none). */
  lemma {:induction false} LabelBeforeFirstSpace(mood: string)
    ensures var l := Label(mood);
      && |l| <= |mood| && l == mood[..|l|] && ' ' !in l
      && (|l| < |mood| ==> mood[|l|] == ' ')
  {
    if mood != [] && mood[0] != ' ' {
      LabelBeforeFirstSpace(mood[1..]);
    }
  }

  /** The moods of the entries, `undefined` included. */
  function MoodsOf(entries: seq<Entry>): (r: seq<Option<string>>)
    ensures |r| == |entries| && forall k :: 0 <= k < |r| ==> r[k] == entries[k].mood
  {
    if entries == [] then [] else [entries[0].mood] + MoodsOf(entries[1..])
  }

  /** `row` is the chart row of `mood`: its label and its longest streak. */
  ghost predicate IsRow(entries: seq<Entry>, offset: int, mood: Option<string>, row: MoodStreak) {
    && mood.Some?
    && row.mood == Label(mood.value)
    && IsLongestStreak(entries, offset, mood, row.streak)
    && row.streak <= |DaysOf(entries, offset)|
  }

  /** `uniqueMoods.map(...)`: one row per mood, in order. `None` stands for
      the exception that `mood.split` raises on a missing mood. */
  method StreakRows(entries: seq<Entry>, offset: int, days: seq<DayMood>, moods: seq<Option<string>>)
    returns (r: Option<seq<MoodStreak>>)
    requires IsTimeline(days, entries, offset) && |days| == |DaysOf(entries, offset)|
    ensures None in moods ==> r == None
    ensures None !in moods ==>
      && r.Some? && |r.value| == |moods|
      && forall i :: 0 <= i < |moods| ==>
        && moods[i].Some?
        && r.value[i].mood == Label(moods[i].value)
        && IsLongestStreak(entries, offset, moods[i], r.value[i].streak)
        && r.value[i].streak <= |DaysOf(entries, offset)|
  {
    var rows: seq<MoodStreak> := [];
    for i := 0 to |moods|
      invariant |rows| == i
      invariant forall q :: 0 <= q < i ==> IsRow(entries, offset, moods[q], rows[q])
    {
      var mood := moods[i];
      var maxStreak := LongestStreak(days, mood);
      TimelineStreak(days, entries, offset, mood, maxStreak);
      if mood.None? {
        return None;
      }
      rows := rows + [MoodStreak(Label(mood.value), maxStreak)];
    }
    return Some(rows);
  }

  /** `calculateLongestStreaks`. `None` stands for the exception that
      `mood.split` raises on an entry without a mood. */
  method CalculateLongestStreaks(entries: seq<Entry>, offset: int) returns (r: Option<seq<MoodStreak>>)
    ensures entries == [] ==> r == Some([])
    ensures entries != [] && (exists k :: 0 <= k < |entries| && entries[k].mood.None?) ==> r == None
    ensures entries != [] && (forall k :: 0 <= k < |entries| ==> entries[k].mood.Some?) ==>
      var moods := Distinct(MoodsOf(entries));
      && r.Some? && |r.value| == |moods|
      && forall i :: 0 <= i < |moods| ==>
        && moods[i].Some?
        && r.value[i].mood == Label(moods[i].value)
        && IsLongestStreak(entries, offset, moods[i], r.value[i].streak)
        && r.value[i].streak <= |DaysOf(entries, offset)|
  {
    if |entries| == 0 {
      return Some([]);
    }
    var entriesByDate, order := GroupByDay(entries, offset);
    var pairs := DictEntries(entriesByDate, order);
    var days := SortBy(pairs, DayKey);
    SortedPairsTimeline(entries, offset, entriesByDate, order);
    TimelineLength(days, entries, offset);
    var uniqueMoods := Distinct(MoodsOf(entries));
    r := StreakRows(entries, offset, days, uniqueMoods);
    if k :| 0 <= k < |entries| && entries[k].mood.None? {
      assert MoodsOf(entries)[k] == None;
    }
  }

  /** `Math.max(...streaks, 1)`: the denominator that scales every bar. */
  function ScaleDenominator(rows: seq<MoodStreak>): (r: nat)
    ensures r >= 1
    ensures forall i :: 0 <= i < |rows| ==> rows[i].streak <= r
    ensures r == 1 || exists i :: 0 <= i < |rows| && rows[i].streak == r
  {
    if rows == [] then 1
    else
      var rest := ScaleDenominator(rows[1..]);
      if rows[0].streak > rest then rows[0].streak else rest
  }
}
