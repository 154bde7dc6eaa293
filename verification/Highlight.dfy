/** Keyword highlighting in chat messages (frontend/components/chat/highlight.tsx). */
module Highlight {
  import opened Options
  import opened TemplateParse

  datatype Part = Plain(text: string) | Mark(key: nat, text: string)

  /** Per-character lower-casing; `lower` stands for the length-preserving part of toLowerCase. */
  function Lower(lower: char -> char, s: string): (r: string)
    ensures |r| == |s| && forall i :: 0 <= i < |s| ==> r[i] == lower(s[i])
  {
    seq(|s|, i requires 0 <= i < |s| => lower(s[i]))
  }

  /** `word` occurs in `s` at `i`. */
  predicate OccursAt(s: string, word: string, i: int) {
    0 <= i && i + |word| <= |s| && s[i..i + |word|] == word
  }

  /** `s.indexOf(word, from)`. */
  function FindFrom(s: string, word: string, from: nat): (r: int)
    requires from <= |s|
    ensures r == -1 || from <= r <= |s| - |word|
    decreases |s| - from
  {
    if OccursAt(s, word, from) then from
    else if from == |s| then -1
    else FindFrom(s, word, from + 1)
  }

  lemma {:induction false} FindsLeftmost(s: string, word: string, from: nat, i: int)
    requires from <= |s|
    ensures var r := FindFrom(s, word, from);
            && (r != -1 ==> OccursAt(s, word, r))
            && (from <= i && OccursAt(s, word, i) ==> r != -1 && r <= i)
    decreases |s| - from
  {
    if !OccursAt(s, word, from) && from < |s| { FindsLeftmost(s, word, from + 1, i); }
  }

  // ── The positions marked ──────────────────────────────────────────────────

  /** Leftmost non-overlapping occurrences from `from` on. */
  function Marked(s: string, word: string, from: nat): (starts: seq<nat>)
    requires word != "" && from <= |s|
    ensures forall k :: 0 <= k < |starts| ==> from <= starts[k] <= |s| - |word|
    decreases |s| - from
  {
    var idx := FindFrom(s, word, from);
    if idx == -1 then [] else [idx] + Marked(s, word, idx + |word|)
  }

  function Text(parts: seq<Part>): string {
    if parts == [] then "" else Text(parts[..|parts| - 1]) + parts[|parts| - 1].text
  }

  /** The marked parts in order, each with its text. */
  function MarkTexts(parts: seq<Part>): seq<string> {
    if parts == [] then []
    else
      var earlier, last := MarkTexts(parts[..|parts| - 1]), parts[|parts| - 1];
      if last.Mark? then earlier + [last.text] else earlier
  }

  function TextsAt(text: string, n: nat, starts: seq<nat>): seq<string>
    requires forall k :: 0 <= k < |starts| ==> starts[k] + n <= |text|
  {
    seq(|starts|, k requires 0 <= k < |starts| => text[starts[k]..starts[k] + n])
  }

  ghost predicate KeysInOrder(parts: seq<Part>) {
    forall i {:trigger MarkTexts(parts[..i])} :: 0 <= i < |parts| && parts[i].Mark? ==>
      parts[i].key == |MarkTexts(parts[..i])|
  }

  lemma PartAppended(parts: seq<Part>, p: Part)
    ensures Text(parts + [p]) == Text(parts) + p.text
    ensures MarkTexts(parts + [p]) == MarkTexts(parts) + (if p.Mark? then [p.text] else [])
    ensures KeysInOrder(parts) && (p.Mark? ==> p.key == |MarkTexts(parts)|) ==> KeysInOrder(parts + [p])
  {
    assert (parts + [p])[..|parts|] == parts;
    forall i | 0 <= i < |parts| ensures (parts + [p])[..i] == parts[..i] {}
  }

  /** The parts cover text[..i], the marks among them being the stretches of length n at `starts`. */
  ghost predicate Scanned(text: string, n: nat, parts: seq<Part>, starts: seq<nat>, i: int) {
    && 0 <= i <= |text| && Text(parts) == text[..i] && KeysInOrder(parts)
    && (forall k :: 0 <= k < |starts| ==> starts[k] + n <= |text|)
    && MarkTexts(parts) == TextsAt(text, n, starts)
  }

  lemma ScanPlain(text: string, n: nat, parts: seq<Part>, starts: seq<nat>, i: int, j: int)
    requires Scanned(text, n, parts, starts, i) && i <= j <= |text|
    ensures Scanned(text, n, parts + [Plain(text[i..j])], starts, j)
  {
    PartAppended(parts, Plain(text[i..j]));
    assert text[..i] + text[i..j] == text[..j];
  }

  lemma ScanMark(text: string, n: nat, parts: seq<Part>, starts: seq<nat>, idx: nat)
    requires Scanned(text, n, parts, starts, idx) && idx + n <= |text|
    ensures Scanned(text, n, parts + [Mark(|starts|, text[idx..idx + n])], starts + [idx], idx + n)
  {
    PartAppended(parts, Mark(|starts|, text[idx..idx + n]));
    assert text[..idx] + text[idx..idx + n] == text[..idx + n];
    assert TextsAt(text, n, starts + [idx]) == TextsAt(text, n, starts) + [text[idx..idx + n]];
  }

  lemma ScanFound(text: string, n: nat, parts: seq<Part>, starts: seq<nat>, i: nat, idx: nat)
    requires Scanned(text, n, parts, starts, i) && i <= idx && idx + n <= |text|
    ensures Scanned(text, n, WithPlain(text, parts, i, idx) + [Mark(|starts|, text[idx..idx + n])],
                    starts + [idx], idx + n)
  {
    if idx > i { ScanPlain(text, n, parts, starts, i, idx); }
    ScanMark(text, n, WithPlain(text, parts, i, idx), starts, idx);
  }

  function WithPlain(text: string, parts: seq<Part>, i: nat, j: nat): seq<Part>
    requires i <= j <= |text|
  {
    if j > i then parts + [Plain(text[i..j])] else parts
  }

  /**
   * The scanning loop. The parts put together are the text, the marks are the leftmost non-overlapping
   * occurrences of the trimmed term, ignoring case, in order, and their keys count up from 0.
   */
  method HighlightKeyword(text: string, term: Option<string>, lower: char -> char) returns (parts: seq<Part>)
    ensures Text(parts) == text && KeysInOrder(parts)
    ensures var t := Trim(term.GetOr(""));
            if t == "" then parts == [Plain(text)]
            else
              var starts := Marked(Lower(lower, text), Lower(lower, t), 0);
              MarkTexts(parts) == TextsAt(text, |t|, starts)
  {
    var t := Trim(term.GetOr(""));
    if t == "" {
      parts := [Plain(text)];
      PartAppended([], Plain(text));
      return;
    }
    parts := ScanMarks(text, Lower(lower, text), Lower(lower, t));
  }

  /** `low.indexOf(lowTerm, i)`: either nothing is left to mark, or this occurrence is marked next. */
  method IndexOf(low: string, word: string, from: nat) returns (idx: int)
    requires word != "" && from <= |low|
    ensures idx == -1 ==> Marked(low, word, from) == []
    ensures idx != -1 ==>
              from <= idx <= |low| - |word| && Marked(low, word, from) == [idx] + Marked(low, word, idx + |word|)
  {
    idx := FindFrom(low, word, from);
  }

  /** `starts` are the marks found before position i; the rest are those found from i on. */
  ghost predicate MarkedSoFar(low: string, word: string, starts: seq<nat>, i: int) {
    word != "" && 0 <= i <= |low| && starts + Marked(low, word, i) == Marked(low, word, 0)
  }

  lemma MarkFound(low: string, word: string, starts: seq<nat>, i: nat, idx: nat)
    requires MarkedSoFar(low, word, starts, i) && i <= idx && idx + |word| <= |low|
    requires Marked(low, word, i) == [idx] + Marked(low, word, idx + |word|)
    ensures MarkedSoFar(low, word, starts + [idx], idx + |word|)
  {
    var rest := Marked(low, word, idx + |word|);
    assert starts + ([idx] + rest) == starts + [idx] + rest;
  }

  lemma ScanStarts(text: string, low: string, lowTerm: string)
    requires |low| == |text| && lowTerm != ""
    ensures Scanned(text, |lowTerm|, [], [], 0) && MarkedSoFar(low, lowTerm, [], 0)
    ensures Marked(low, lowTerm, |low|) == []
  {
    assert [] + Marked(low, lowTerm, 0) == Marked(low, lowTerm, 0);
  }

  /** The while loop of highlightKeyword, on the lower-cased text and term. */
  method ScanMarks(text: string, low: string, lowTerm: string) returns (parts: seq<Part>)
    requires |low| == |text| && lowTerm != ""
    ensures Text(parts) == text && KeysInOrder(parts)
    ensures MarkTexts(parts) == TextsAt(text, |lowTerm|, Marked(low, lowTerm, 0))
  {
    hide Scanned, MarkedSoFar, Marked, Text, MarkTexts, KeysInOrder, TextsAt;
    parts := [];
    var i, key, n := 0, 0, |lowTerm|;
    ghost var starts: seq<nat> := [];
    ScanStarts(text, low, lowTerm);
    while i < |text|
      invariant 0 <= i <= |text| && Scanned(text, n, parts, starts, i) && key == |starts|
      invariant MarkedSoFar(low, lowTerm, starts, i)
      decreases |text| - i
    {
      var idx := IndexOf(low, lowTerm, i);
      if idx == -1 {
        ScanPlain(text, n, parts, starts, i, |text|);
        parts := parts + [Plain(text[i..|text|])];
        break;
      }
      ScanFound(text, n, parts, starts, i, idx);
      if idx > i {
        parts := parts + [Plain(text[i..idx])];
      }
      parts := parts + [Mark(key, text[idx..idx + n])];
      MarkFound(low, lowTerm, starts, i, idx);
      i, key, starts := idx + n, key + 1, starts + [idx];
    }
    ScanEnds(text, low, lowTerm, parts, starts, i);
  }

  lemma ScanEnds(text: string, low: string, lowTerm: string, parts: seq<Part>, starts: seq<nat>, i: nat)
    requires |low| == |text| && lowTerm != "" && Scanned(text, |lowTerm|, parts, starts, |text|)
    requires MarkedSoFar(low, lowTerm, starts, i)
    requires Marked(low, lowTerm, i) == []
    ensures Text(parts) == text && KeysInOrder(parts)
    ensures MarkTexts(parts) == TextsAt(text, |lowTerm|, Marked(low, lowTerm, 0))
  {
    assert text[..|text|] == text;
    assert starts + [] == starts;
  }

  // ── Which occurrences are marked ──────────────────────────────────────────

  /** Occurrences of the word, in order and none overlapping the next. */
  predicate AreApart(s: string, word: string, starts: seq<nat>) {
    && (forall k :: 0 <= k < |starts| ==> OccursAt(s, word, starts[k]))
    && (forall j, k :: 0 <= j < k < |starts| ==> starts[j] + |word| <= starts[k])
  }

  lemma ApartCons(s: string, word: string, idx: nat, rest: seq<nat>)
    requires AreApart(s, word, rest) && OccursAt(s, word, idx)
    requires forall k :: 0 <= k < |rest| ==> idx + |word| <= rest[k]
    ensures AreApart(s, word, [idx] + rest)
  {
    hide OccursAt;
  }

  /** What is marked are occurrences apart from one another. */
  lemma {:induction false} MarksAreApart(s: string, word: string, from: nat)
    requires word != "" && from <= |s|
    ensures AreApart(s, word, Marked(s, word, from))
    decreases |s| - from
  {
    hide AreApart;
    var idx := FindFrom(s, word, from);
    if idx != -1 {
      FindsLeftmost(s, word, from, idx);
      MarksAreApart(s, word, idx + |word|);
      ApartCons(s, word, idx, Marked(s, word, idx + |word|));
    } else {
      NoneAreApart(s, word);
    }
  }

  lemma NoneAreApart(s: string, word: string)
    ensures AreApart(s, word, [])
  {
  }

  /** Every occurrence meets a mark: it is marked itself or overlaps an earlier marked one. */
  lemma {:induction false} OccurrencesMeetMarks(s: string, word: string, from: nat, i: nat) returns (k: nat)
    requires word != "" && from <= |s| && from <= i && OccursAt(s, word, i)
    ensures k < |Marked(s, word, from)|
    ensures Marked(s, word, from)[k] <= i < Marked(s, word, from)[k] + |word|
    ensures OccursAt(s, word, Marked(s, word, from)[k])
    decreases |s| - from
  {
    FindsLeftmost(s, word, from, i);
    var idx := FindFrom(s, word, from);
    if i < idx + |word| {
      k := 0;
    } else {
      k := OccurrencesMeetMarks(s, word, idx + |word|, i);
      k := k + 1;
    }
  }

  /** The word overlaps a copy of itself shifted by d. */
  ghost predicate Overlaps(word: string, d: int) {
    0 < d < |word| && forall k :: 0 <= k < |word| - d ==> word[d + k] == word[k]
  }

  ghost predicate IsMarked(s: string, word: string, i: int)
    requires word != ""
  {
    exists k :: 0 <= k < |Marked(s, word, 0)| && Marked(s, word, 0)[k] == i
  }

  ghost predicate MarksEveryOccurrence(s: string, word: string)
    requires word != ""
  {
    forall i: nat :: OccursAt(s, word, i) ==> IsMarked(s, word, i)
  }

  lemma UnmarkedOverlaps(s: string, word: string, i: nat)
    requires word != "" && OccursAt(s, word, i) && !IsMarked(s, word, i)
    ensures exists d :: Overlaps(word, d)
  {
    var k := OccurrencesMeetMarks(s, word, 0, i);
    var at := Marked(s, word, 0)[k];
    CloseOccurrencesOverlap(s, word, at, i);
  }

  lemma CloseOccurrencesOverlap(s: string, word: string, a: int, b: int)
    requires OccursAt(s, word, a) && OccursAt(s, word, b) && a < b < a + |word|
    ensures Overlaps(word, b - a)
  {
    forall j | 0 <= j < |word| - (b - a) ensures word[b - a + j] == word[j] {
      assert s[a..a + |word|][b - a + j] == s[b + j];
      assert s[b..b + |word|][j] == s[b + j];
    }
  }

  /** Two overlapping copies: the second one is an occurrence that stays unmarked. */
  lemma OverlapIsUnmarked(word: string, d: nat)
    requires Overlaps(word, d)
    ensures !MarksEveryOccurrence(word[..d] + word, word)
  {
    var s := word[..d] + word;
    assert s[d..d + |word|] == word;
    forall k | 0 <= k < |word| ensures s[k] == word[k] {
      if k >= d { assert word[d + (k - d)] == word[k - d]; }
    }
    assert s[0..0 + |word|] == word;
    assert OccursAt(s, word, 0) && OccursAt(s, word, d);
    FindsLeftmost(s, word, 0, 0);
    var rest := Marked(s, word, |word|);
    assert Marked(s, word, 0) == [0] + rest;
    assert !IsMarked(s, word, d);
  }

  /**
   * Every occurrence is marked, in every text, if and only if the term does not overlap a shifted copy
   * of itself. Searching "aa" in "aaa" leaves the second occurrence unmarked.
   */
  lemma MarksAllIff(word: string)
    requires word != ""
    ensures (forall s :: MarksEveryOccurrence(s, word)) <==> !exists d :: Overlaps(word, d)
  {
    if exists d :: Overlaps(word, d) {
      var d :| Overlaps(word, d);
      OverlapIsUnmarked(word, d);
    } else {
      forall s ensures MarksEveryOccurrence(s, word) {
        forall i: nat | OccursAt(s, word, i) ensures IsMarked(s, word, i) {
          if !IsMarked(s, word, i) { UnmarkedOverlaps(s, word, i); }
        }
      }
    }
  }
}
