/** The insight cards: how many entries there are, which mood is the most
    frequent, and whether the newest entries lean positive, neutral or
    negative. Timestamps are only compared here, so their unit does not
    matter. */
module MoodInsights {
  import opened Common
  import opened Sorting

  /** The three fixed moods the app offers that score above or below neutral. */
  const Happy: string := "\U{1F60A} Happy"
  const Calm: string := "\U{1F60C} Calm"
  const Anxious: string := "\U{1F630} Anxious"
  const Sad: string := "\U{1F622} Sad"
  const Angry: string := "\U{1F620} Angry"

  /** The number of entries the trend looks at. */
  const TrendWindow: nat := 7

  /** What the card shows; `null` in the source is `None` around it. */
  datatype MoodStats = MoodStats(totalEntries: nat, mostFrequentMood: string, moodTrend: Direction)

  /** The trend label; the card shows it as `'positive'`, `'neutral'` or `'negative'`. */
  datatype Direction = Positive | Neutral | Negative

  // ---------------------------------------------------------------------------
  // Counting moods

  /** Entry `e` is counted under mood `m`: its mood is `m`, and `m` is truthy. */
  predicate CountsAs(e: Entry, m: string) {
    e.mood == Some(m) && m != ""
  }

  /** The number of entries counted under `m`. */
  function CountMood(es: seq<Entry>, m: string): nat {
    if es == [] then 0
    else CountMood(es[..|es| - 1], m) + (if CountsAs(es[|es| - 1], m) then 1 else 0)
  }

  lemma CountStep(es: seq<Entry>, k: int, m: string)
    requires 0 <= k < |es|
    ensures CountMood(es[..k + 1], m) == CountMood(es[..k], m) + (if CountsAs(es[k], m) then 1 else 0)
  {
    assert es[..k + 1][..k] == es[..k];
  }

  /** A longer prefix never counts fewer entries. */
  lemma {:induction false} CountMonotone(es: seq<Entry>, i: int, j: int, m: string)
    requires 0 <= i <= j <= |es|
    ensures CountMood(es[..i], m) <= CountMood(es[..j], m)
  {
    if i < j {
      CountMonotone(es, i, j - 1, m);
      CountStep(es, j - 1, m);
    }
  }

  /** A mood is counted at all exactly when some entry carries it. */
  lemma {:induction false} CountPositive(es: seq<Entry>, m: string)
    ensures CountMood(es, m) > 0 <==> exists k :: 0 <= k < |es| && CountsAs(es[k], m)
  {
    if es != [] {
      var n := |es| - 1;
      CountPositive(es[..n], m);
      if CountMood(es[..n], m) > 0 {
        var k :| 0 <= k < n && CountsAs(es[..n][k], m);
        assert es[k] == es[..n][k];
      }
      forall k | 0 <= k < n && CountsAs(es[k], m) ensures CountMood(es[..n], m) > 0 {
        assert es[..n][k] == es[k];
      }
    }
  }

  /** Entries counted under one mood are entries with a mood: moodless
      entries count towards the total but towards no mood. */
  lemma {:induction false} CountAtMostMoodful(es: seq<Entry>, m: string)
    ensures CountMood(es, m) <= Moodful(es) <= |es|
  {
    if es != [] {
      CountAtMostMoodful(es[..|es| - 1], m);
    }
  }

  /** The `forEach` over the entries: `counts` is the `moodCounts` dictionary
      and `mostFrequent` the mood whose count first went above the running
      maximum. The maximum only moves on a strictly larger count, so of two
      moods with the top count the one that got there first wins. */
  method CountMoods(entries: seq<Entry>) returns (counts: map<string, nat>, mostFrequent: string)
    ensures forall m :: m in counts <==> CountMood(entries, m) > 0
    ensures forall m :: m in counts ==> counts[m] == CountMood(entries, m)
    ensures mostFrequent == "" <==> forall k :: 0 <= k < |entries| ==> !HasMood(entries[k])
    ensures forall m :: CountMood(entries, m) <= CountMood(entries, mostFrequent)
    ensures forall m, i :: 0 <= i <= |entries| && CountMood(entries[..i], m) >= CountMood(entries, mostFrequent) ==>
      CountMood(entries[..i], mostFrequent) >= CountMood(entries, mostFrequent)
  {
    counts, mostFrequent := map[], "";
    var maxCount: nat := 0;
    for k := 0 to |entries|
      invariant CountsMatch(entries[..k], counts)
      invariant Leads(entries[..k], mostFrequent, maxCount)
      invariant ReachedFirst(entries, k, mostFrequent, maxCount)
    {
      var entry := entries[k];
      if !(entry.mood.Some? && entry.mood.value != "") {
        SkipStep(entries, k, k + 1, counts, mostFrequent, maxCount);
        continue;
      }
      var mood := entry.mood.value;
      var c := (if mood in counts then counts[mood] else 0) + 1;
      CountsStep(entries, k, k + 1, counts, mood);
      counts := counts[mood := c];
      if c > maxCount {
        TieNewLeader(entries, k, k + 1, mood, maxCount);
        maxCount := c;
        mostFrequent := mood;
      } else {
        TieKept(entries, k, k + 1, mostFrequent, maxCount);
      }
    }
    assert entries[..|entries|] == entries;
    forall k | 0 <= k < |entries| && HasMood(entries[k]) ensures mostFrequent != "" {
      CountPositive(entries, entries[k].mood.value);
    }
    if mostFrequent != "" {
      CountPositive(entries, mostFrequent);
    }
  }

  /** `counts` holds the count of every mood that occurs in `es`, and no other key. */
  ghost predicate CountsMatch(es: seq<Entry>, counts: map<string, nat>) {
    && (forall m :: m in counts <==> CountMood(es, m) > 0)
    && (forall m :: m in counts ==> counts[m] == CountMood(es, m))
  }

  /** `leader` has the top count `top` of `es`; the empty string stands for
      "no mood yet", with count zero. */
  ghost predicate Leads(es: seq<Entry>, leader: string, top: nat) {
    && top == CountMood(es, leader)
    && (leader == "" <==> top == 0)
    && (forall m :: CountMood(es, m) <= top)
  }

  /** Within the first `k` entries, no mood reached `top` before `leader` did. */
  ghost predicate ReachedFirst(es: seq<Entry>, k: int, leader: string, top: nat) {
    forall m, i :: 0 <= i <= k && i <= |es| && CountMood(es[..i], m) >= top ==> CountMood(es[..i], leader) >= top
  }

  /** An entry without a mood changes no count. */
  lemma SkipStep(es: seq<Entry>, k: int, next: int, counts: map<string, nat>, leader: string, top: nat)
    requires 0 <= k < |es| && next == k + 1 && !HasMood(es[k])
    requires CountsMatch(es[..k], counts) && Leads(es[..k], leader, top) && ReachedFirst(es, k, leader, top)
    ensures CountsMatch(es[..next], counts) && Leads(es[..next], leader, top) && ReachedFirst(es, next, leader, top)
  {
    forall m ensures CountMood(es[..next], m) == CountMood(es[..k], m) {
      CountStep(es, k, m);
    }
  }

  /** An entry with mood `m` adds one to the count of `m` and to no other. */
  lemma CountsStep(es: seq<Entry>, k: int, next: int, counts: map<string, nat>, m: string)
    requires 0 <= k < |es| && next == k + 1 && CountsAs(es[k], m)
    requires CountsMatch(es[..k], counts)
    ensures CountsMatch(es[..next], counts[m := (if m in counts then counts[m] else 0) + 1])
    ensures forall m' :: m' != m ==> CountMood(es[..next], m') == CountMood(es[..k], m')
    ensures CountMood(es[..next], m) == (if m in counts then counts[m] else 0) + 1
  {
    forall m' ensures CountMood(es[..next], m') == CountMood(es[..k], m') + (if m' == m then 1 else 0) {
      CountStep(es, k, m');
    }
  }

  /** The tie rule when the leader stays: a mood that reaches the top count
      at step `next` only ties the leader, which reached it earlier. */
  lemma TieKept(es: seq<Entry>, k: int, next: int, leader: string, top: nat)
    requires 0 <= k < |es| && next == k + 1 && HasMood(es[k])
    requires Leads(es[..k], leader, top) && ReachedFirst(es, k, leader, top)
    requires CountMood(es[..next], es[k].mood.value) <= top
    requires forall m' :: m' != es[k].mood.value ==> CountMood(es[..next], m') == CountMood(es[..k], m')
    ensures Leads(es[..next], leader, top) && ReachedFirst(es, next, leader, top)
  {
    CountStep(es, k, leader);
    forall m ensures CountMood(es[..next], m) <= top {
      CountStep(es, k, m);
    }
  }

  /** The tie rule when mood `m` takes the lead at step `next`: no mood had
      reached its new count before. */
  lemma TieNewLeader(es: seq<Entry>, k: int, next: int, m: string, top: nat)
    requires 0 <= k < |es| && next == k + 1 && CountsAs(es[k], m)
    requires forall m' :: CountMood(es[..k], m') <= top
    requires CountMood(es[..next], m) > top
    ensures Leads(es[..next], m, CountMood(es[..next], m))
    ensures ReachedFirst(es, next, m, CountMood(es[..next], m))
  {
    CountStep(es, k, m);
    forall m' ensures CountMood(es[..next], m') <= CountMood(es[..next], m) {
      CountStep(es, k, m');
    }
    forall m', i | 0 <= i <= next && CountMood(es[..i], m') >= CountMood(es[..next], m)
      ensures CountMood(es[..i], m) >= CountMood(es[..next], m)
    {
      if i <= k {
        CountMonotone(es, i, k, m');
      }
    }
  }

  // ---------------------------------------------------------------------------
  // The trend

  /** `moodMap[entry.mood] || 3`: the five fixed moods score 5, 4, 2, 1, 1;
      any other mood, and a missing one, scores 3. */
  function Valence(mood: Option<string>): (v: int)
    ensures 1 <= v <= 5
  {
    if mood == Some(Happy) then 5
    else if mood == Some(Calm) then 4
    else if mood == Some(Anxious) then 2
    else if mood == Some(Sad) || mood == Some(Angry) then 1
    else 3
  }

  /** The total score of `es`; every entry adds between 1 and 5. */
  function ValenceSum(es: seq<Entry>): (r: int)
    ensures |es| <= r <= 5 * |es|
  {
    if es == [] then 0 else Valence(es[0].mood) + ValenceSum(es[1..])
  }

  /** The sort key of `(a, b) => b.timestamp - a.timestamp`: newest first. */
  function Newest(e: Entry): int {
    -e.timestamp
  }

  /** `[...entries].sort(newest first).slice(0, 7)`. */
  function Recent(entries: seq<Entry>): (r: seq<Entry>)
    ensures |r| == Min(TrendWindow, |entries|)
  {
    SortBy(entries, Newest)[..Min(TrendWindow, |entries|)]
  }

  /** The class of an average `sum / n`, compared with 3.5 and 2.5 by
      cross-multiplication. */
  function Classify(sum: int, n: nat): Direction
    requires n > 0
  {
    if 2 * sum >= 7 * n then Positive
    else if 2 * sum >= 5 * n then Neutral
    else Negative
  }

  /** The trend of a non-empty list of entries. */
  function Trend(entries: seq<Entry>): Direction
    requires |entries| > 0
  {
    var recent := Recent(entries);
    Classify(ValenceSum(recent), |recent|)
  }

  /** Cross-multiplication decides what comparing the average decides. */
  lemma ClassifyIsAverage(sum: int, n: nat)
    requires n > 0
    ensures var avg := (sum as real) / (n as real);
      && (Classify(sum, n) == Positive <==> avg >= 3.5)
      && (Classify(sum, n) == Neutral <==> 2.5 <= avg < 3.5)
      && (Classify(sum, n) == Negative <==> avg < 2.5)
  {
    AverageAtLeast(sum, n, 3.5);
    AverageAtLeast(sum, n, 2.5);
  }

  /** An average is at least `c` when the total is at least `c` per item. */
  lemma AverageAtLeast(sum: int, n: nat, c: real)
    requires n > 0
    ensures (sum as real) / (n as real) >= c <==> sum as real >= c * (n as real)
  {
    var avg, count := (sum as real) / (n as real), n as real;
    assert avg * count == sum as real;
    if avg >= c {
      assert (avg - c) * count >= 0.0;
    } else {
      assert (c - avg) * count > 0.0;
    }
  }

  /** The window holds `min(7, n)` of the entries, and none of the entries
      left out is newer than one in the window. Of the entries that share a
      timestamp, the window holds the first ones in input order, so ties at
      the cut-off are settled by input order. */
  lemma RecentAreNewest(entries: seq<Entry>)
    ensures |Recent(entries)| == Min(TrendWindow, |entries|)
    ensures multiset(Recent(entries)) <= multiset(entries)
    ensures forall x, y :: x in Recent(entries) && y in multiset(entries) - multiset(Recent(entries)) ==>
      x.timestamp >= y.timestamp
    ensures forall k :: WithKey(Recent(entries), Newest, k) <= WithKey(entries, Newest, k)
  {
    var sorted := SortBy(entries, Newest);
    var w := Min(TrendWindow, |entries|);
    assert sorted == sorted[..w] + sorted[w..];
    assert multiset(entries) - multiset(sorted[..w]) == multiset(sorted[w..]);
    SortedSplit(sorted, Newest, w);
    RecentTies(entries);
  }

  lemma RecentTies(entries: seq<Entry>)
    ensures forall k :: WithKey(Recent(entries), Newest, k) <= WithKey(entries, Newest, k)
  {
    forall k ensures WithKey(Recent(entries), Newest, k) <= WithKey(entries, Newest, k) {
      WithKeyPrefix(SortBy(entries, Newest), Newest, k, Min(TrendWindow, |entries|));
      SortByStable(entries, Newest, k);
    }
  }

  /** When every entry in `es` scores `v`, the scores add up to `v` per entry. */
  lemma {:induction false} ValenceSumConstant(es: seq<Entry>, v: int)
    requires forall k :: 0 <= k < |es| ==> Valence(es[k].mood) == v
    ensures ValenceSum(es) == v * |es|
  {
    if es != [] {
      ValenceSumConstant(es[1..], v);
    }
  }

  /** The window is drawn from the entries, so a score every entry shares is
      the score of every entry in the window. */
  lemma RecentConstant(entries: seq<Entry>, v: int)
    requires |entries| > 0
    requires forall k :: 0 <= k < |entries| ==> Valence(entries[k].mood) == v
    ensures ValenceSum(Recent(entries)) == v * |Recent(entries)| && |Recent(entries)| > 0
  {
    var recent := Recent(entries);
    RecentAreNewest(entries);
    forall k | 0 <= k < |recent| ensures Valence(recent[k].mood) == v {
      assert recent[k] in multiset(recent);
      assert recent[k] in multiset(entries);
      var j :| 0 <= j < |entries| && entries[j] == recent[k];
    }
    ValenceSumConstant(recent, v);
  }

  /** Only happy entries: the trend is positive. */
  lemma AllHappyIsPositive(entries: seq<Entry>)
    requires |entries| > 0
    requires forall k :: 0 <= k < |entries| ==> entries[k].mood == Some(Happy)
    ensures Trend(entries) == Positive
  {
    RecentConstant(entries, 5);
  }

  /** Only sad entries: the trend is negative. */
  lemma AllSadIsNegative(entries: seq<Entry>)
    requires |entries| > 0
    requires forall k :: 0 <= k < |entries| ==> entries[k].mood == Some(Sad)
    ensures Trend(entries) == Negative
  {
    RecentConstant(entries, 1);
  }

  /** Only moods outside the fixed five, or none: the trend is neutral. */
  lemma UnmappedIsNeutral(entries: seq<Entry>)
    requires |entries| > 0
    requires forall k :: 0 <= k < |entries| ==> Valence(entries[k].mood) == 3
    ensures Trend(entries) == Neutral
  {
    RecentConstant(entries, 3);
  }

  // ---------------------------------------------------------------------------
  // The whole computation

  /** `calculateMoodStats`: `None` on no entries, otherwise the total, the
      most frequent mood and the trend. */
  method CalculateMoodStats(entries: seq<Entry>) returns (r: Option<MoodStats>)
    ensures entries == [] <==> r == None
    ensures r.Some? ==>
      && r.value.totalEntries == |entries|
      && r.value.moodTrend == Trend(entries)
      && (r.value.mostFrequentMood == "" <==> forall k :: 0 <= k < |entries| ==> !HasMood(entries[k]))
      && (forall m :: CountMood(entries, m) <= CountMood(entries, r.value.mostFrequentMood))
      && (forall m, i :: 0 <= i <= |entries| && CountMood(entries[..i], m) >= CountMood(entries, r.value.mostFrequentMood) ==>
            CountMood(entries[..i], r.value.mostFrequentMood) >= CountMood(entries, r.value.mostFrequentMood))
  {
    if |entries| == 0 {
      return None;
    }
    var _, mostFrequentMood := CountMoods(entries);
    var moodTrend := Trend(entries);
    return Some(MoodStats(|entries|, mostFrequentMood, moodTrend));
  }
}
