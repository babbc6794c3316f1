# MindMirror core, modelled in Dafny

MindMirror is a journaling app. This project models the logic at its core and proves what that logic promises. The logic comes in four groups:

- **Mood analytics** (`MoodStreak`, `MoodInsights`, `MoodAnalysis`). These are the three computations behind the chart cards:
  - the longest run of consecutive days per mood;
  - the entry count, the most frequent mood and the seven-entry trend;
  - the most common mood per weekday.
- **The offline write queue** (`OfflineQueue`). It is a stored list that offline saves append to. A replay sends its entries in order, stops at the first failure and clears the list only when everything was sent.
- **The local journal list** (`Journal`). Two screens read the list stored under `journal_entries`, put a new entry in front and write it back. One of them shows the head of the list as the last entry; the other navigates back to the journal.
- **Suggestion post-processing** (`Suggestions`). This covers the user message sent to the language model and the clean-up of its reply: split into lines, drop blank lines, keep three. Fixed prompts are used on failure.

Shared values live in `Common`:

- the entry;
- the storage slot (`Missing`, `Unreadable` or a stored list);
- the calendar day of a timestamp;
- the JavaScript string behaviour the code relies on (`trim`, `split`, `join`, decimal `toString`).

`Sorting` holds an insertion sort that stands for `Array.prototype.sort`. It is proved sorted, a permutation of its input and stable (`SortByStable`), as the language requires of `Array.prototype.sort`.

Modelling conventions:

- **Moods.** A mood is `Option<string>`. "Truthy" means present and not empty (`HasMood`).
- **Calendar days.** A local calendar day is `(ts + offset) / 86400`, where `offset` is the zone's offset in seconds. The weekday is `(day + 4) % 7`, with 0 for Sunday, because 1 January 1970 was a Thursday.
- **Trend average.** The float average is replaced by integer cross-multiplication. `ClassifyIsAverage` proves that this decides exactly what comparing the real average with 3.5 and 2.5 decides.
- **The clock.** `Date.now()`, storage outcomes and network outcomes are parameters (`idNow`, `tsNow`, `readOk`, `writeOk`, `sendOk`, `removeOk`, the model's reply).
- **Timestamp units.** The charts read a timestamp as seconds (`timestamp * 1000`). The journal screens store `Date.now()`, which is milliseconds. The model keeps the unit out of `Entry`. `Journal.MillisecondsReadAsSeconds` shows where the two meet: an entry from the second day of 1970 onwards, read as seconds, lands on a day at least a thousand times later than its own.

## Model

| member | source | states |
|---|---|---|
| MoodStreak.GroupByDay | components/charts/MoodStreakChart.tsx:22-26 | The per-day dictionary has a key for exactly the days some entry falls on. Each day's value is the mood of the last entry on that day. The key order has no duplicates and lists every key. |
| MoodStreak.LastMoodOn | components/charts/MoodStreakChart.tsx:22-26 | Definition of what the `reduce` leaves under a day: the mood of the last entry on that day, or no key when no entry falls on it. Its meaning is stated by `LastMoodOnMeans` and `LastMoodOnSome`. |
| MoodStreak.LastMoodOnOfLast | components/charts/MoodStreakChart.tsx:22-26 | The last entry that falls on a day decides that day's mood. |
| MoodStreak.LastMoodOnWitness | components/charts/MoodStreakChart.tsx:22-26 | A day that keeps a mood has a last entry, and that entry carries the mood. |
| MoodStreak.LastMoodOnMeans | components/charts/MoodStreakChart.tsx:22-26 | A day keeps a mood exactly when some entry on the day carries it and no later entry falls on the day. |
| MoodStreak.LastMoodOnSome | components/charts/MoodStreakChart.tsx:22-26 | A day has a mood exactly when some entry falls on it. |
| MoodStreak.DictEntries | components/charts/MoodStreakChart.tsx:37 | `Object.entries` yields one pair per key, in key order, each carrying the key's value. |
| MoodStreak.DictPairs | components/charts/MoodStreakChart.tsx:22-37 | The dictionary's pairs list each day with an entry exactly once, each with the mood that day keeps. |
| MoodStreak.SortedPairsTimeline | components/charts/MoodStreakChart.tsx:37-38 | Sorting the pairs by date gives the timeline: every day with an entry, once, in strictly ascending order, with its mood. |
| MoodStreak.TimelineLength | components/charts/MoodStreakChart.tsx:37-38 | The timeline has one position per distinct day with an entry. |
| MoodStreak.AscendingDaysCard | components/charts/MoodStreakChart.tsx:37-38 | A strictly ascending list of days has as many distinct days as positions. |
| MoodStreak.LongestStreak | components/charts/MoodStreakChart.tsx:33-58 | The scan returns the length of some run of adjacent positions that carry the mood on days exactly one apart, and no such run is longer. |
| MoodStreak.ScanStep | components/charts/MoodStreakChart.tsx:42-57 | One step of the scan keeps `currentStreak` equal to the longest run ending at the current day. Another mood resets it to 0, and a gap of more than one day restarts it at 1. |
| MoodStreak.RunShrink | components/charts/MoodStreakChart.tsx:42-49 | A run longer than one position, cut at its last day, is still a run, and its last two days are one apart. |
| MoodStreak.ListRunDays | components/charts/MoodStreakChart.tsx:44-46 | Along a run, the n-th position is n days after the first. |
| MoodStreak.ListRunIsCalendarRun | components/charts/MoodStreakChart.tsx:37-58 | A run along the timeline is a run of consecutive calendar days that all keep the mood. |
| MoodStreak.CalendarRunIsListRun | components/charts/MoodStreakChart.tsx:37-58 | Conversely, every run of consecutive calendar days keeping the mood is a run of the same length along the timeline. |
| MoodStreak.TimelineNext | components/charts/MoodStreakChart.tsx:37-45 | If the day after a listed day has an entry, it is the next listed day. |
| MoodStreak.TimelineWalk | components/charts/MoodStreakChart.tsx:37-58 | Walking a calendar run from its first day along the timeline meets each of its days in turn. |
| MoodStreak.AscendingIndex | components/charts/MoodStreakChart.tsx:38 | Along a strictly ascending list, an earlier-or-equal day sits at an earlier-or-equal position. |
| MoodStreak.StepsRun | components/charts/MoodStreakChart.tsx:42-49 | Positions that carry the mood on consecutive days form a run. |
| MoodStreak.TimelineStreak | components/charts/MoodStreakChart.tsx:37-58 | The longest run along the timeline is the longest run of calendar days keeping the mood, and it is at most the number of days. |
| MoodStreak.StreakPositiveIffKept | components/charts/MoodStreakChart.tsx:22-56 | A streak is at least 1 exactly when some day keeps the mood. A mood overwritten on all its days scores 0. |
| MoodStreak.LabelBeforeFirstSpace | components/charts/MoodStreakChart.tsx:61 | The row label is the mood's text before its first space, or the whole text when it has no space. |
| MoodStreak.Label | components/charts/MoodStreakChart.tsx:61 | `mood.split(' ')[0]` holds no space. `LabelBeforeFirstSpace` states that it is the text before the first space. |
| MoodStreak.MoodsOf | components/charts/MoodStreakChart.tsx:29 | `entries.map(e => e.mood)` keeps length and order, missing moods included. |
| MoodStreak.StreakRows | components/charts/MoodStreakChart.tsx:32-64 | There is one row per mood, in order. Each row has its label and the longest calendar streak, bounded by the number of distinct days. A missing mood raises (`None`). |
| MoodStreak.CalculateLongestStreaks | components/charts/MoodStreakChart.tsx:18-65 | Empty input gives no rows, and an entry without a mood makes the computation raise. Otherwise there is one row per distinct mood in order of first appearance, each carrying the mood's label and its longest streak of consecutive days (at most the number of distinct days). |
| MoodStreak.ScaleDenominator | components/charts/MoodStreakChart.tsx:68 | The bar scale is at least 1 and at least every streak, and it is 1 or some row's streak. |
| Common.Distinct | components/charts/MoodStreakChart.tsx:29 | `[...new Set(xs)]` has no duplicates and holds exactly the values of `xs`. |
| Common.DistinctOrder | components/charts/MoodStreakChart.tsx:29 | Those values come in order of first appearance. |
| MoodInsights.CountMoods | components/charts/MoodInsights.tsx:16-27 | The count map has a key for exactly the truthy moods, each holding its number of entries. The chosen mood is `''` exactly when no entry has a mood, and its count is maximal. Among moods with the maximal count, it is the first to reach that count. |
| MoodInsights.CountMood | components/charts/MoodInsights.tsx:20-22 | Definition of a mood's count: the number of entries whose mood is that (truthy) mood. Its properties are in `CountStep`, `CountMonotone`, `CountPositive` and `CountAtMostMoodful`. |
| MoodInsights.CountStep | components/charts/MoodInsights.tsx:20-22 | Each entry adds one to its own mood's count, and only when the mood is truthy. |
| MoodInsights.CountMonotone | components/charts/MoodInsights.tsx:20-22 | A mood's count never decreases along the input. |
| MoodInsights.CountPositive | components/charts/MoodInsights.tsx:21-22 | A mood has a positive count exactly when some entry carries it. |
| MoodInsights.CountAtMostMoodful | components/charts/MoodInsights.tsx:21-47 | No count exceeds the number of entries with a mood, and that number is at most the total shown. |
| MoodInsights.CountsStep | components/charts/MoodInsights.tsx:22 | Incrementing the map with the `|| 0` default keeps every key's value equal to its count, and changes no other mood's count. |
| MoodInsights.SkipStep | components/charts/MoodInsights.tsx:21 | An entry without a mood leaves the counts, the leader and its tie rule as they were. |
| MoodInsights.TieKept | components/charts/MoodInsights.tsx:23 | An entry that only ties the leader's count (strict `>`) leaves the leader in place. |
| MoodInsights.TieNewLeader | components/charts/MoodInsights.tsx:23-25 | A mood that overtakes the maximum becomes the leader, and it is the first to reach its count. |
| MoodInsights.Valence | components/charts/MoodInsights.tsx:34-43 | Every mood scores between 1 and 5. |
| MoodInsights.ClassifyIsAverage | components/charts/MoodInsights.tsx:42-49 | Cross-multiplication picks positive exactly when the average is at least 3.5, neutral exactly when it is in [2.5, 3.5), and negative exactly when it is below 2.5. |
| MoodInsights.ValenceSum | components/charts/MoodInsights.tsx:42-44 | The window's total score lies between its length and five times its length. |
| MoodInsights.Recent | components/charts/MoodInsights.tsx:30-32 | The window is the first min(7, n) entries of the newest-first sort of a copy. It holds min(7, n) entries. `RecentAreNewest` states which entries those are. |
| MoodInsights.Classify | components/charts/MoodInsights.tsx:49 | Definition of the three-way split by cross-multiplication. `ClassifyIsAverage` states its meaning in terms of the average. |
| MoodInsights.Trend | components/charts/MoodInsights.tsx:30-49 | Definition of the trend: the class of the window's total score over its length. `ClassifyIsAverage`, `RecentAreNewest` and the three all-one-mood lemmas state its meaning. |
| MoodInsights.AverageAtLeast | components/charts/MoodInsights.tsx:42-49 | An average is at least c exactly when the total is at least c times the count. |
| MoodInsights.RecentAreNewest | components/charts/MoodInsights.tsx:30-32 | The window holds min(7, n) of the entries, and no entry left out is newer than one in the window. Of the entries tied at one timestamp, it keeps the earliest in input order. |
| MoodInsights.ValenceSumConstant | components/charts/MoodInsights.tsx:42-44 | Entries that all score v add up to v times their number. |
| MoodInsights.RecentTies | components/charts/MoodInsights.tsx:30-32 | Of the entries sharing a timestamp, the window holds a prefix in input order, because the sort is stable. |
| MoodInsights.RecentConstant | components/charts/MoodInsights.tsx:30-44 | A non-empty list whose entries all score v has a non-empty window totalling v per entry. |
| MoodInsights.AllHappyIsPositive | components/charts/MoodInsights.tsx:35-49 | Entries that are all `😊 Happy` trend positive. |
| MoodInsights.AllSadIsNegative | components/charts/MoodInsights.tsx:38-49 | Entries that are all `😢 Sad` trend negative. |
| MoodInsights.UnmappedIsNeutral | components/charts/MoodInsights.tsx:42-49 | Entries that all score 3, as any unmapped or missing mood does, trend neutral. |
| MoodInsights.CalculateMoodStats | components/charts/MoodInsights.tsx:13-51 | The result is null exactly on empty input. Otherwise it holds: the total of all entries, moodless ones included; a most-frequent mood with maximal count, `''` only when no entry has a mood, and first to reach that count; and the trend of the newest seven. |
| MoodAnalysis.WeekdayOf | components/charts/MoodAnalysis.tsx:22 | A weekday is one of the seven names. |
| MoodAnalysis.BucketByWeekday | components/charts/MoodAnalysis.tsx:16-26 | There are seven arrays, and each holds, in input order, the truthy moods of the entries falling on its weekday. |
| MoodAnalysis.Bucket | components/charts/MoodAnalysis.tsx:21-26 | Definition of a weekday's bucket: the truthy moods of the entries falling on that weekday, in input order. `BucketMembers` and `BucketsPartition` state its meaning. |
| MoodAnalysis.BucketMembers | components/charts/MoodAnalysis.tsx:21-25 | A mood is in a weekday's bucket exactly when some entry with that mood falls on that weekday. |
| MoodAnalysis.SizeBelowStep | components/charts/MoodAnalysis.tsx:21-25 | Each entry with a mood adds one to exactly one bucket, and an entry without one adds nothing. |
| MoodAnalysis.NoEntriesNoMoods | components/charts/MoodAnalysis.tsx:16-19 | Before any entry all buckets are empty. |
| MoodAnalysis.BucketsPartition | components/charts/MoodAnalysis.tsx:21-25 | The buckets together hold exactly as many moods as there are entries with a mood. |
| MoodAnalysis.CommonMoodIsMode | components/charts/MoodAnalysis.tsx:31-33 | Sorting by count and popping gives a mood of the bucket with maximal count. On a tie it is the mood whose last occurrence comes latest. |
| MoodAnalysis.CommonMood | components/charts/MoodAnalysis.tsx:31-33 | `moods.sort(by count).pop()` is one of the bucket's moods. `CommonMoodIsMode` states which one. |
| MoodAnalysis.CommonMoodUnique | components/charts/MoodAnalysis.tsx:31-33 | That tie rule leaves exactly one possible mood. |
| MoodAnalysis.Picks | components/charts/MoodAnalysis.tsx:29-33 | A weekday has a pick exactly when its bucket is not empty. |
| MoodAnalysis.Patterns | components/charts/MoodAnalysis.tsx:29-35 | The reduce keeps at most one key per weekday, in weekday order, each with that weekday's pick. |
| MoodAnalysis.PatternsCover | components/charts/MoodAnalysis.tsx:29-35 | Every weekday with a pick has its key. |
| MoodAnalysis.AnalyzeMoodPatterns | components/charts/MoodAnalysis.tsx:13-38 | The result is null exactly on empty input. Otherwise there are at most seven keys in Sunday-to-Saturday order, exactly the weekdays with a mood, each mapped to the common mood of its bucket. Input without moods gives an empty object. |
| Sorting.SortBy | components/charts/MoodInsights.tsx:30-31 | The sort returns a permutation of its input, ordered by key. `SortByStable` adds that it is stable. |
| Sorting.SortByMembers | components/charts/MoodInsights.tsx:30-31 | The sort neither adds nor drops values. |
| Sorting.SortByStable | components/charts/MoodInsights.tsx:30-31 | The sort is stable: for every key, the elements with that key come out in their input order. |
| Sorting.InsertWithKey | components/charts/MoodInsights.tsx:31 | Inserting a value puts it in front of the elements that share its key and leaves the others' order alone. |
| Sorting.SplicedWithKey | components/charts/MoodInsights.tsx:31 | A value placed after only smaller keys comes first among the elements sharing its key. |
| Sorting.WithKeyAppend | components/charts/MoodInsights.tsx:31 | Picking the elements with one key distributes over concatenation. |
| Sorting.WithKeyPrefix | components/charts/MoodInsights.tsx:32 | A prefix of a sequence holds, for every key, the first elements with that key. |
| Sorting.SortByStrict | components/charts/MoodStreakChart.tsx:38 | Values with distinct keys come out strictly ascending. |
| Sorting.SortedSplit | components/charts/MoodInsights.tsx:31-32 | In a sorted list, nothing before a cut has a larger key than anything after it. |
| Sorting.SortByLastLatest | components/charts/MoodAnalysis.tsx:31-33 | The last element after a stable sort has the maximal key. Of the values with that key, it is the one occurring latest in the input. |
| Sorting.SortByLast | components/charts/MoodAnalysis.tsx:31-33 | The last element after the sort is in the input, has the maximal key, and on a tie is the latest-occurring value. |
| Sorting.InsertLast | components/charts/MoodAnalysis.tsx:31-33 | Inserting into a sorted list changes its last element only for a strictly larger key. |
| Sorting.PopStep | components/charts/MoodAnalysis.tsx:31-33 | Putting a value in front keeps the latest-maximal choice. |
| Sorting.Insert | components/charts/MoodInsights.tsx:31 | Inserting one value into a sorted list keeps it sorted and adds exactly that value. |
| OfflineQueue.Drafts | lib/offlineStorage.ts:24-26 | There is one `createEntry(content, mood, reflection)` call per entry, in order. |
| OfflineQueue.FirstFailure | lib/offlineStorage.ts:24-30 | This is the position of the first send that fails, every earlier send succeeds, and it is the length when none fails. |
| OfflineQueue.Attempted | lib/offlineStorage.ts:24-30 | A replay calls a prefix of the entries in order. Every call but the last succeeds, and the last fails unless all succeed. |
| OfflineQueue.OfflineStore.SaveOfflineEntry | lib/offlineStorage.ts:7-16 | With a readable store and a successful write, the entry is appended to the stored list, a missing list counting as empty. Any failure is swallowed and leaves the store as it was. |
| OfflineQueue.OfflineStore.SyncOfflineEntries | lib/offlineStorage.ts:18-40 | A failed read or unparsable list gives false, with nothing sent and nothing changed. A missing list gives true with nothing sent. Otherwise the sends go out in order up to the first failure. The result is true exactly when all sends and the removal succeed, and only then is the key removed. |
| OfflineQueue.FailureAt | lib/offlineStorage.ts:24-30 | A replay whose first failure is the k-th send attempts exactly the first k+1 entries. |
| OfflineQueue.AllSent | lib/offlineStorage.ts:24-32 | A replay with no failure attempts every entry. |
| Journal.NewEntry | app/journal.tsx:39-43 | The new entry has the input verbatim as content and the clock reading as timestamp. Its id is a decimal string that reads back as the first clock reading, and it has no mood. |
| Journal.IdIsTimestamp | app/journal.tsx:40-42 | When both clock readings agree, the id reads back as the timestamp. |
| Journal.IdsDistinct | app/journal.tsx:40 | Saves at different clock readings get different ids. |
| Journal.Submittable | app/journal.tsx:36 | The `!entry.trim()` guard lets through exactly the inputs not made of whitespace alone. |
| Journal.Head | app/journal.tsx:24-28 | The last entry is the head of a non-empty stored list, and there is none otherwise. |
| Journal.Prepended | app/journal.tsx:46-50 | `unshift` puts the new entry first and shifts the old list by one, a missing list counting as empty. |
| Journal.HeadAfterSave | app/journal.tsx:50-54 | After a save, the head loaded back is the saved entry. |
| Journal.JournalScreen.LoadLastEntry | app/journal.tsx:21-33 | A successful read of a non-empty list shows its head. Anything else leaves the last entry unchanged. |
| Journal.JournalScreen.SaveEntry | app/journal.tsx:35-58 | Non-blank input, a readable store and a successful write prepend the new entry, clear the input and show the entry. Otherwise nothing changes. |
| Journal.NewEntryScreen.SaveEntry | app/journal/new.tsx:16-39 | Non-blank input, a readable store and a successful write prepend the new entry and navigate to `/journal`. Otherwise nothing is stored and there is no navigation. The input is never cleared. |
| Journal.SaveThenLoad | app/journal/new.tsx:26-35 | An entry saved on the new-entry screen is the one the journal screen then loads. |
| Journal.SecondsKeepDay | lib/supabase.ts:54 | Storing `floor(ms / 1000)` seconds keeps the calendar day of the milliseconds. |
| Journal.MillisecondsReadAsSeconds | app/journal.tsx:42 | From the second day of 1970 on, a millisecond timestamp read as seconds falls on a day at least a thousand times later than its own. |
| Common.TrimEmptyIffAllSpace | app/journal/new.tsx:17 | `trim()` returns the empty string exactly for whitespace-only text. |
| Common.Trim | app/journal.tsx:36 | `trim()` is no longer than its input and neither starts nor ends with whitespace. |
| Common.HasMood | components/charts/MoodInsights.tsx:21 | Definition of a truthy `entry.mood`: present and not the empty string. |
| Common.DayOf | components/charts/MoodStreakChart.tsx:23 | The local day of a timestamp is the day whose 86400 seconds contain the timestamp shifted by the zone offset. |
| Common.DecimalString | app/journal.tsx:40 | `toString()` of a number is a non-empty string of digits without a leading zero. `ParseDecimalString` states that it reads back as the number. |
| Common.TrimStart | app/journal.tsx:36 | Trimming the front drops a whitespace prefix and stops at a non-whitespace character. |
| Common.TrimEnd | app/journal.tsx:36 | Trimming the back drops a whitespace suffix and stops at a non-whitespace character. |
| Common.ParseDecimalString | app/journal.tsx:40 | `Number.prototype.toString` reads back as the number it wrote. |
| Common.DecimalStringInjective | app/journal.tsx:40 | Different numbers give different decimal strings. |
| Common.Split | lib/openai.ts:26 | Splitting gives at least one piece, and no piece holds the separator. |
| Common.JoinSplit | lib/openai.ts:26 | Joining the pieces of a split gives back the text. |
| Common.SplitJoin | lib/openai.ts:19 | Splitting a join of separator-free parts gives back the parts. |
| Common.Join | lib/openai.ts:19 | Definition of `join`: the parts with the separator between neighbours. `JoinSplit` and `SplitJoin` state that it undoes `split`. |
| Suggestions.PromptIsJoin | lib/openai.ts:19 | The user message is its lines joined with line breaks: the label with the entries, the mood line and the request. |
| Suggestions.UserPrompt | lib/openai.ts:19 | Definition of the user message: the label and the entries joined by line breaks, then the mood line and the request. `PromptIsJoin` and `PromptSplits` state its line structure. |
| Suggestions.PromptSplits | lib/openai.ts:19 | When no entry and not the mood holds a line break, the message splits into the label with the first entry, each further entry, the mood line and the request. |
| Suggestions.NotBlankIsTrimmedNonEmpty | lib/openai.ts:27 | The filter keeps exactly the lines whose trimmed form is not empty. |
| Suggestions.NonBlank | lib/openai.ts:27 | The filter keeps no more lines than it is given, and each kept line has a non-whitespace character. |
| Suggestions.NonBlankIndex | lib/openai.ts:27 | The i-th kept line is a reply line with exactly i non-blank lines before it. |
| Suggestions.NonBlankKeeps | lib/openai.ts:27 | Every non-blank line is kept, at the position given by the number of non-blank lines before it. |
| Suggestions.SuggestShape | lib/openai.ts:26-38 | There are at most three suggestions, each non-blank, without a line break and, on success, a line of the reply as it was. |
| Suggestions.Suggest | lib/openai.ts:26-38 | Definition of the result: the first three non-blank lines of the reply, or the three fixed prompts on failure. `SuggestShape`, `SuggestFirstLines`, `SuggestKeepsEarlyLines` and `SuggestFailure` state its meaning. |
| Suggestions.SuggestFirstLines | lib/openai.ts:26-28 | The suggestions are the first min(3, n) non-blank lines of the reply, in order and untrimmed. Three or more non-blank lines give exactly three. |
| Suggestions.SuggestKeepsEarlyLines | lib/openai.ts:26-28 | No non-blank line among the first three is dropped. |
| Suggestions.SuggestFailure | lib/openai.ts:31-38 | Any failure gives exactly the three fixed prompts, in order. |

## Left out

- The send in `syncOfflineEntries` calls `createEntry`, but lib/offlineStorage.ts does not import it. As written, the first iteration over a non-empty list throws a `ReferenceError`, and the inner `catch` returns `false`. No call is made, the list stays stored, and a non-empty queue never drains. The model turns the send into an outcome parameter, `sendOk(i)` for the i-th call, which describes the loop as it would run with `createEntry` imported. The as-written run is the case `sendOk(0) == false`, with one difference: `SyncOfflineEntries` then reports one attempted call in `sent`, and as written that call never happens.
- `createEntry` in lib/supabase.ts reports failure in its return value instead of throwing, so the replay's `catch` never sees it. The model follows the `try`/`catch` as written and makes no claim about the return value.
- The page range of `fetchUserEntries` (lib/supabase.ts:67) is not part of this model. Nothing in the core reads pages.
- Authentication, the Express server, the Supabase edge function and the remote row layout are not part of this model. They are library and network plumbing.
- The language model call (lib/openai.ts:10-24) is a foreign network call. Its reply is a parameter, `Some(content)` or `None` for any error, including a missing `content`.
- Async interleavings are not modelled, for example two saves racing their read-modify-write on one key. Each operation runs to completion on its own.
- JSON and AsyncStorage serialisation are abstracted to a stored list, or `Unreadable` when the text does not parse as a list.
- `toLocaleDateString`, re-parsing dates and daylight saving time are abstracted to integer day numbers under a fixed zone offset. The floating `dayDiff === 1` test becomes a difference of day numbers equal to 1.
- MoodStreak.GroupByDay: the dictionary's string keys (locale date strings) are integer days. The key order of `Object.entries` is kept as a separate list, so the model holds for any key order, because the pairs are re-sorted by day.
- MoodStreak.StreakRows: the chart re-sorts the same dictionary pairs once per mood. The model sorts them once and passes the sorted list to every row, since the sort's result is the same each time.
- Floating point is not modelled. The trend's average is replaced by cross-multiplication, which `ClassifyIsAverage` relates to the real average. The bar widths are left out as rendering.
- MoodAnalysis.BucketByWeekday: `weekdayMoods[day].push` and the in-place `sort(...).pop()` are modelled on values (`seq`), not as mutation of shared arrays. No alias of those arrays escapes the function.
- MoodAnalysis.Patterns: the common mood of each bucket is computed ahead of the `reduce` (`Picks`). Each step of the reduce depends only on its own bucket, so the order of evaluation does not change the result.
- JavaScript strings are UTF-16. The model treats a string as a sequence of Unicode scalar values. This affects no operation modelled here, since `split`, `trim` and comparisons act on whole characters that occur in the data.
- Object keys that collide with `Object.prototype` properties (such as a mood named `constructor`) are not modelled. Counts and buckets are plain maps and sequences.
- Rendering, styles, the theme context, the network-status hook and the mock-data charts are left out as presentation.
