/** The weekly patterns card: the entries' moods grouped by the local weekday
    of their timestamp (seconds), and for each weekday that has any, the
    mood that occurs most often there. */
module MoodAnalysis {
  import opened Common
  import opened Sorting

  /** The keys of `weekdayMoods`, in the order they are declared. */
  const WeekdayNames: seq<string> := ["Sunday", "Monday", "Tuesday", "Wednesday", "Thursday", "Friday", "Saturday"]

  /** The local weekday of a timestamp, 0 for Sunday: day 0 of the epoch,
      1 January 1970, was a Thursday. */
  function WeekdayOf(ts: int, offset: int): (d: nat)
    ensures d < |WeekdayNames|
  {
    (DayOf(ts, offset) + 4) % 7
  }

  /** One key of the result: a weekday, by its index into `WeekdayNames`,
      and its most common mood. */
  datatype Pattern = Pattern(weekday: nat, mood: string)

  // ---------------------------------------------------------------------------
  // Buckets

  /** The moods that end up in the bucket of weekday `d`, in input order. */
  function Bucket(entries: seq<Entry>, offset: int, d: int): seq<string> {
    if entries == [] then []
    else
      var e := entries[|entries| - 1];
      Bucket(entries[..|entries| - 1], offset, d)
        + (if HasMood(e) && WeekdayOf(e.timestamp, offset) == d then [e.mood.value] else [])
  }

  /** The `forEach` that pushes each truthy mood onto its weekday's array. */
  method BucketByWeekday(entries: seq<Entry>, offset: int) returns (weekdayMoods: seq<seq<string>>)
    ensures |weekdayMoods| == |WeekdayNames|
    ensures forall d :: 0 <= d < |WeekdayNames| ==> weekdayMoods[d] == Bucket(entries, offset, d)
  {
    weekdayMoods := [[], [], [], [], [], [], []];
    for k := 0 to |entries|
      invariant |weekdayMoods| == |WeekdayNames|
      invariant forall d :: 0 <= d < |WeekdayNames| ==> weekdayMoods[d] == Bucket(entries[..k], offset, d)
    {
      assert entries[..k + 1][..k] == entries[..k];
      var entry := entries[k];
      var day := WeekdayOf(entry.timestamp, offset);
      if entry.mood.Some? && entry.mood.value != "" {
        weekdayMoods := weekdayMoods[day := weekdayMoods[day] + [entry.mood.value]];
      }
    }
    assert entries[..|entries|] == entries;
  }

  /** A mood is in the bucket of `d` exactly when some entry with that mood
      falls on weekday `d`. */
  lemma {:induction false} BucketMembers(entries: seq<Entry>, offset: int, d: int, m: string)
    ensures m in Bucket(entries, offset, d) <==>
      exists k :: 0 <= k < |entries| && HasMood(entries[k]) && entries[k].mood.value == m
        && WeekdayOf(entries[k].timestamp, offset) == d
  {
    if entries != [] {
      var n := |entries| - 1;
      var front := entries[..n];
      BucketMembers(front, offset, d, m);
      if m in Bucket(front, offset, d) {
        var k :| 0 <= k < n && HasMood(front[k]) && front[k].mood.value == m && WeekdayOf(front[k].timestamp, offset) == d;
        assert entries[k] == front[k];
      }
      forall k | 0 <= k < n && HasMood(entries[k]) && entries[k].mood.value == m && WeekdayOf(entries[k].timestamp, offset) == d
        ensures m in Bucket(front, offset, d)
      {
        assert front[k] == entries[k];
      }
    }
  }

  /** The sizes of the buckets of weekdays `0 .. n - 1`, added up. */
  function SizeBelow(entries: seq<Entry>, offset: int, n: nat): nat {
    if n == 0 then 0 else SizeBelow(entries, offset, n - 1) + |Bucket(entries, offset, n - 1)|
  }

  lemma {:induction false} SizeBelowStep(entries: seq<Entry>, offset: int, n: nat)
    requires entries != []
    ensures var e := entries[|entries| - 1];
      SizeBelow(entries, offset, n) == SizeBelow(entries[..|entries| - 1], offset, n)
        + (if HasMood(e) && WeekdayOf(e.timestamp, offset) < n then 1 else 0)
  {
    if n > 0 {
      SizeBelowStep(entries, offset, n - 1);
    }
  }

  lemma {:induction false} NoEntriesNoMoods(offset: int, n: nat)
    ensures SizeBelow([], offset, n) == 0
  {
    if n > 0 {
      NoEntriesNoMoods(offset, n - 1);
    }
  }

  /** Every entry with a mood lands in exactly one bucket: the buckets hold
      as many moods as there are entries with one. */
  lemma {:induction false} BucketsPartition(entries: seq<Entry>, offset: int)
    ensures SizeBelow(entries, offset, |WeekdayNames|) == Moodful(entries)
  {
    if entries == [] {
      NoEntriesNoMoods(offset, |WeekdayNames|);
    } else {
      BucketsPartition(entries[..|entries| - 1], offset);
      SizeBelowStep(entries, offset, |WeekdayNames|);
    }
  }

  // ---------------------------------------------------------------------------
  // The most common mood of a bucket

  /** The comparator's `moods.filter(v => v === x).length`. The engine sorts
      a copy of the array's elements and writes them back at the end, so the
      counts are those of the bucket before sorting. */
  function Occurrences(moods: seq<string>, x: string): nat {
    multiset(moods)[x]
  }

  /** `moods.sort(by count).pop()`. */
  function CommonMood(moods: seq<string>): (m: string)
    requires |moods| > 0
    ensures m in moods
  {
    SortByMembers(moods, x => Occurrences(moods, x));
    Last(SortBy(moods, x => Occurrences(moods, x)))
  }

  /** `m` occurs in `moods` as often as any mood does, and of the moods that
      occur that often, the last occurrence of `m` comes latest. */
  ghost predicate IsCommonMood(moods: seq<string>, m: string) {
    && m in moods
    && (forall x :: x in moods ==> Occurrences(moods, x) <= Occurrences(moods, m))
    && (forall i :: 0 <= i < |moods| && Occurrences(moods, moods[i]) == Occurrences(moods, m) ==> i <= LastIndex(moods, m))
  }

  lemma CommonMoodIsMode(moods: seq<string>)
    requires |moods| > 0
    ensures IsCommonMood(moods, CommonMood(moods))
  {
    var key := x => Occurrences(moods, x);
    SortByLast(moods, key);
    var m := CommonMood(moods);
    forall x | x in moods ensures Occurrences(moods, x) <= Occurrences(moods, m) {
      var i :| 0 <= i < |moods| && moods[i] == x;
      assert key(moods[i]) <= key(m);
    }
  }

  /** The tie rule leaves no choice: at most one mood is the common mood. */
  lemma CommonMoodUnique(moods: seq<string>, a: string, b: string)
    requires IsCommonMood(moods, a) && IsCommonMood(moods, b)
    ensures a == b
  {
    var i, j := LastIndex(moods, a), LastIndex(moods, b);
    assert Occurrences(moods, moods[j]) == Occurrences(moods, a);
    assert j <= i;
    assert Occurrences(moods, moods[i]) == Occurrences(moods, b);
  }

  // ---------------------------------------------------------------------------
  // Patterns

  /** What the `reduce` callback computes for each weekday: the common mood
      of its bucket, `None` for an empty bucket, which the callback skips.
      Each value depends on its own bucket alone, so computing them ahead of
      the fold changes nothing. */
  function Picks(buckets: seq<seq<string>>): (picks: seq<Option<string>>)
    ensures |picks| == |buckets|
    ensures forall d :: 0 <= d < |buckets| ==> (picks[d].Some? <==> |buckets[d]| > 0)
  {
    seq(|buckets|, d requires 0 <= d < |buckets| => if |buckets[d]| == 0 then None else Some(CommonMood(buckets[d])))
  }

  /** The `reduce` over the first `n` weekdays: an empty bucket adds nothing,
      any other adds its weekday with its pick. A fresh key spread
      into an object goes to the end, so the keys come in weekday order. */
  function Patterns(picks: seq<Option<string>>, n: nat): (ps: seq<Pattern>)
    requires n <= |picks|
    ensures |ps| <= n
    ensures forall i :: 0 <= i < |ps| ==> ps[i].weekday < n && picks[ps[i].weekday] == Some(ps[i].mood)
    ensures forall i, j :: 0 <= i < j < |ps| ==> ps[i].weekday < ps[j].weekday
  {
    if n == 0 then []
    else
      var acc := Patterns(picks, n - 1);
      match picks[n - 1]
      case None => acc
      case Some(mood) =>
        var ps := acc + [Pattern(n - 1, mood)];
        assert ps[|acc|].weekday == n - 1;
        ps
  }

  /** Every weekday below `n` with a pick has its key. */
  lemma {:induction false} PatternsCover(picks: seq<Option<string>>, n: nat, d: int)
    requires n <= |picks| && 0 <= d < n && picks[d].Some?
    ensures exists i :: 0 <= i < |Patterns(picks, n)| && Patterns(picks, n)[i].weekday == d
  {
    var acc := Patterns(picks, n - 1);
    if d < n - 1 {
      PatternsCover(picks, n - 1, d);
      var i :| 0 <= i < |acc| && acc[i].weekday == d;
      assert Patterns(picks, n)[i] == acc[i];
    } else {
      assert Patterns(picks, n)[|acc|].weekday == d;
    }
  }

  /** `analyzeMoodPatterns`: `None` on no entries; otherwise, in weekday
      order, each weekday with a mood and that weekday's common mood. */
  method AnalyzeMoodPatterns(entries: seq<Entry>, offset: int) returns (r: Option<seq<Pattern>>)
    ensures entries == [] <==> r == None
    ensures r.Some? ==> |r.value| <= |WeekdayNames|
    ensures r.Some? ==> forall i, j :: 0 <= i < j < |r.value| ==> r.value[i].weekday < r.value[j].weekday
    ensures r.Some? ==> forall i :: 0 <= i < |r.value| ==>
      r.value[i].weekday < |WeekdayNames| && IsCommonMood(Bucket(entries, offset, r.value[i].weekday), r.value[i].mood)
    ensures r.Some? ==> forall d :: 0 <= d < |WeekdayNames| && |Bucket(entries, offset, d)| > 0 ==>
      exists i :: 0 <= i < |r.value| && r.value[i].weekday == d
    ensures r.Some? && (forall k :: 0 <= k < |entries| ==> !HasMood(entries[k])) ==> r.value == []
  {
    if |entries| == 0 {
      return None;
    }
    var weekdayMoods := BucketByWeekday(entries, offset);
    var picks := Picks(weekdayMoods);
    var patterns := Patterns(picks, |WeekdayNames|);
    forall i | 0 <= i < |patterns|
      ensures IsCommonMood(Bucket(entries, offset, patterns[i].weekday), patterns[i].mood)
    {
      CommonMoodIsMode(weekdayMoods[patterns[i].weekday]);
    }
    forall d | 0 <= d < |WeekdayNames| && |Bucket(entries, offset, d)| > 0
      ensures exists i :: 0 <= i < |patterns| && patterns[i].weekday == d
    {
      PatternsCover(picks, |WeekdayNames|, d);
    }
    if forall k :: 0 <= k < |entries| ==> !HasMood(entries[k]) {
      if patterns != [] {
        var d := patterns[0].weekday;
        BucketMembers(entries, offset, d, weekdayMoods[d][0]);
      }
    }
    return Some(patterns);
  }
}
