/** Reflection prompts: the request text built from the previous entries and
    the current mood, and the post-processing of the model's reply. The call
    to the model is not modelled; its reply is `Some(text)`, or `None` when
    the call fails or the reply has no content. */
module Suggestions {
  import opened Common

  /** The number of prompts kept from a reply. */
  const Wanted: nat := 3

  const Newline: char := '\n'

  /** The prompts returned whenever the call or the reply fails. */
  const Fallback: seq<string> := [
    "What's on your mind right now?",
    "How has your day been going?",
    "What are you grateful for today?"
  ]

  const EntriesLabel: string := "Previous entries: "
  const MoodLabel: string := "Current mood: "
  /** The last line of the message, "Generate 3 relevant prompts for deeper reflection." */
  const Request: string := "Generate 3 relevant prompts " + "for deeper reflection."

  /** The user message: the entries one per line after a label, then the
      mood, then the request. */
  function UserPrompt(entries: seq<string>, mood: string): string {
    EntriesLabel + Join(entries, Newline) + [Newline] + MoodLabel + mood + [Newline] + Request
  }

  /** The lines of the user message when no entry and not the mood contains
      a line break. */
  function PromptLines(entries: seq<string>, mood: string): seq<string> {
    EntryLines(entries) + [MoodLabel + mood, Request]
  }

  /** The message lists every entry on a line of its own: splitting it at
      line breaks gives the label line, the entries, the mood and the request. */
  lemma PromptSplits(entries: seq<string>, mood: string)
    requires forall i :: 0 <= i < |entries| ==> Newline !in entries[i]
    requires Newline !in mood
    ensures Split(UserPrompt(entries, mood), Newline) == PromptLines(entries, mood)
  {
    PromptIsJoin(entries, mood);
    PromptLinesUnbroken(entries, mood);
    SplitJoin(PromptLines(entries, mood), Newline);
  }

  /** The message is its lines joined with line breaks. */
  lemma PromptIsJoin(entries: seq<string>, mood: string)
    ensures Join(PromptLines(entries, mood), Newline) == UserPrompt(entries, mood)
  {
    var head := EntryLines(entries);
    var tail := [MoodLabel + mood, Request];
    assert PromptLines(entries, mood) == head + tail;
    JoinAppend(head, tail, Newline);
    EntryLinesJoin(entries);
    TailJoin(mood);
    var front := EntriesLabel + Join(entries, Newline) + [Newline];
    AppendAssoc(front, MoodLabel + mood + [Newline], Request);
    AppendAssoc(front, MoodLabel + mood, [Newline]);
    AppendAssoc(front, MoodLabel, mood);
  }

  lemma AppendAssoc<T>(a: seq<T>, b: seq<T>, c: seq<T>)
    ensures a + (b + c) == (a + b) + c
  {
  }

  /** The lines that carry the label and the entries. */
  function EntryLines(entries: seq<string>): seq<string> {
    if entries == [] then [EntriesLabel] else [EntriesLabel + entries[0]] + entries[1..]
  }

  lemma EntryLinesJoin(entries: seq<string>)
    ensures |EntryLines(entries)| >= 1
    ensures Join(EntryLines(entries), Newline) == EntriesLabel + Join(entries, Newline)
  {
    if entries != [] {
      JoinPrefixFirst(EntriesLabel, entries, Newline);
    }
  }

  lemma TailJoin(mood: string)
    ensures Join([MoodLabel + mood, Request], Newline) == MoodLabel + mood + [Newline] + Request
  {
    assert [MoodLabel + mood, Request][1..] == [Request];
  }

  /** The fixed parts of the message have no line break of their own. */
  lemma LabelsUnbroken()
    ensures Newline !in EntriesLabel && Newline !in MoodLabel && Newline !in Request
  {
    RequestUnbroken();
  }

  lemma RequestUnbroken()
    ensures Newline !in Request
  {
    assert Newline !in "Generate 3 relevant prompts ";
  }

  lemma PromptLinesUnbroken(entries: seq<string>, mood: string)
    requires forall i :: 0 <= i < |entries| ==> Newline !in entries[i]
    requires Newline !in mood
    ensures forall i :: 0 <= i < |PromptLines(entries, mood)| ==> Newline !in PromptLines(entries, mood)[i]
  {
    var lines := PromptLines(entries, mood);
    var head := EntryLines(entries);
    var tail := [MoodLabel + mood, Request];
    assert lines == head + tail;
    LabelsUnbroken();
    forall i | 0 <= i < |lines| ensures Newline !in lines[i] {
      if i == 0 && entries != [] {
        assert lines[0] == EntriesLabel + entries[0];
      } else if 0 < i < |head| {
        assert lines[i] == entries[i];
      } else if i >= |head| {
        assert lines[i] == tail[i - |head|];
      }
    }
  }

  lemma {:induction false} JoinAppend(a: seq<string>, b: seq<string>, sep: char)
    requires |a| >= 1 && |b| >= 1
    ensures Join(a + b, sep) == Join(a, sep) + [sep] + Join(b, sep)
  {
    if |a| == 1 {
      assert (a + b)[1..] == b;
    } else {
      JoinAppend(a[1..], b, sep);
      assert (a + b)[1..] == a[1..] + b;
    }
  }

  lemma JoinPrefixFirst(p: string, parts: seq<string>, sep: char)
    requires |parts| >= 1
    ensures Join([p + parts[0]] + parts[1..], sep) == p + Join(parts, sep)
  {
    var joined := [p + parts[0]] + parts[1..];
    assert joined[1..] == parts[1..];
  }

  // ---------------------------------------------------------------------------
  // The reply

  /** `line.trim().length > 0`: some character is not whitespace. */
  predicate NotBlank(line: string) {
    !AllSpace(line)
  }

  /** `NotBlank` is the filter's test on the trimmed line. */
  lemma NotBlankIsTrimmedNonEmpty(line: string)
    ensures NotBlank(line) <==> |Trim(line)| > 0
  {
    TrimEmptyIffAllSpace(line);
  }

  /** `filter(line => line.trim().length > 0)`. */
  function NonBlank(lines: seq<string>): (r: seq<string>)
    ensures |r| <= |lines|
    ensures forall i :: 0 <= i < |r| ==> NotBlank(r[i])
  {
    if lines == [] then []
    else
      var front := NonBlank(lines[..|lines| - 1]);
      var last := lines[|lines| - 1];
      front + (if NotBlank(last) then [last] else [])
  }

  /** `x` is the non-blank line of `lines` with exactly `i` non-blank lines
      before it. */
  ghost predicate IsNthNonBlank(lines: seq<string>, i: int, x: string) {
    exists j :: 0 <= j < |lines| && lines[j] == x && NotBlank(lines[j]) && |NonBlank(lines[..j])| == i
  }

  /** The `i`-th kept line is the non-blank line with `i` non-blank lines
      before it. */
  lemma {:induction false} NonBlankIndex(lines: seq<string>, i: int)
    requires 0 <= i < |NonBlank(lines)|
    ensures IsNthNonBlank(lines, i, NonBlank(lines)[i])
    ensures NonBlank(lines)[i] in lines
  {
    var n := |lines| - 1;
    var front := lines[..n];
    if i < |NonBlank(front)| {
      NonBlankIndex(front, i);
      var j :| 0 <= j < |front| && front[j] == NonBlank(front)[i] && NotBlank(front[j]) && |NonBlank(front[..j])| == i;
      assert front[..j] == lines[..j];
      assert lines[j] == NonBlank(lines)[i];
    } else {
      assert lines[..n] == front;
      assert lines[n] == NonBlank(lines)[i];
    }
  }

  /** Every non-blank line of the reply is kept, in the order of the reply. */
  lemma {:induction false} NonBlankKeeps(lines: seq<string>, j: int)
    requires 0 <= j < |lines| && NotBlank(lines[j])
    ensures |NonBlank(lines[..j])| < |NonBlank(lines)|
    ensures NonBlank(lines)[|NonBlank(lines[..j])|] == lines[j]
  {
    var n := |lines| - 1;
    if j < n {
      NonBlankKeeps(lines[..n], j);
      assert lines[..n][..j] == lines[..j];
    } else {
      assert lines[..n] == lines[..j];
    }
  }

  /** The lines `generateSuggestions` returns for a reply: the first three
      non-blank lines of its content, or the fallback prompts on failure. */
  function Suggest(reply: Option<string>): seq<string> {
    match reply
    case None => Fallback
    case Some(content) =>
      var kept := NonBlank(Split(content, Newline));
      kept[..Min(Wanted, |kept|)]
  }

  /** At most three lines, each with something besides whitespace and
      without a line break, each a line of the reply as it was. */
  lemma SuggestShape(reply: Option<string>)
    ensures |Suggest(reply)| <= Wanted
    ensures forall i :: 0 <= i < |Suggest(reply)| ==> NotBlank(Suggest(reply)[i]) && Newline !in Suggest(reply)[i]
    ensures reply.Some? ==> forall i :: 0 <= i < |Suggest(reply)| ==> Suggest(reply)[i] in Split(reply.value, Newline)
  {
    var r := Suggest(reply);
    if reply.None? {
      forall i | 0 <= i < |r| ensures NotBlank(r[i]) && Newline !in r[i] {
        assert !IsSpace(r[i][0]);
      }
    } else {
      var lines := Split(reply.value, Newline);
      var kept := NonBlank(lines);
      forall i | 0 <= i < |r| ensures NotBlank(r[i]) && Newline !in r[i] && r[i] in lines {
        assert r[i] == kept[i];
        NonBlankIndex(lines, i);
      }
    }
  }

  /** The returned lines are the reply's first non-blank lines in order:
      line `i` of the result is the non-blank line with `i` non-blank lines
      before it, and a reply with three or more gives exactly three. */
  lemma SuggestFirstLines(content: string)
    ensures var lines, r := Split(content, Newline), Suggest(Some(content));
      && |r| == Min(Wanted, |NonBlank(lines)|)
      && (forall i :: 0 <= i < |r| ==> IsNthNonBlank(lines, i, r[i]))
  {
    var lines, r := Split(content, Newline), Suggest(Some(content));
    forall i | 0 <= i < |r| ensures IsNthNonBlank(lines, i, r[i]) {
      NonBlankIndex(lines, i);
    }
  }

  /** No non-blank line among the first three is dropped. */
  lemma SuggestKeepsEarlyLines(content: string, j: int)
    requires var lines := Split(content, Newline);
      0 <= j < |lines| && NotBlank(lines[j]) && |NonBlank(lines[..j])| < Wanted
    ensures Split(content, Newline)[j] in Suggest(Some(content))
  {
    var lines := Split(content, Newline);
    NonBlankKeeps(lines, j);
    assert Suggest(Some(content))[|NonBlank(lines[..j])|] == lines[j];
  }

  /** A failed call gives exactly the three fallback prompts. */
  lemma SuggestFailure()
    ensures Suggest(None) == Fallback && |Suggest(None)| == Wanted
  {
  }
}
