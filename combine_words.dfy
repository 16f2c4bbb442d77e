/** `TextMatcher._combine_characters_to_words`: sorts the records by start
    time, merges consecutive records whose joined text occurs in the target,
    adds back original multi-character records not already covered, and sorts
    the result longest first. */
module Combining {
  import opened Strings
  import opened Records
  import opened Sorting

  /** Python's `max(a, b)`. */
  function Max(a: real, b: real): real {
    if b > a then b else a
  }

  /** The confidence of a merged run: the running maximum over its records. */
  function MaxConf(run: seq<Word>): real
    requires run != []
    decreases |run|
  {
    if |run| == 1 then run[0].conf
    else Max(MaxConf(run[..|run| - 1]), run[|run| - 1].conf)
  }

  /** The running maximum is the largest confidence in the run. */
  lemma {:induction false} MaxConfIsMax(run: seq<Word>)
    requires run != []
    ensures forall k :: 0 <= k < |run| ==> run[k].conf <= MaxConf(run)
    ensures exists k :: 0 <= k < |run| && run[k].conf == MaxConf(run)
    decreases |run|
  {
    if |run| == 1 {
      assert run[0].conf == MaxConf(run);
    } else {
      var init := run[..|run| - 1];
      MaxConfIsMax(init);
      assert forall k :: 0 <= k < |init| ==> init[k] == run[k];
      if MaxConf(init) < run[|run| - 1].conf {
        assert run[|run| - 1].conf == MaxConf(run);
      } else {
        var k :| 0 <= k < |init| && init[k].conf == MaxConf(init);
        assert run[k].conf == MaxConf(run);
      }
    }
  }

  /** The record a run is merged into: the joined text, the first record's
      start, the last record's end and the highest confidence. */
  function MergeRun(run: seq<Word>): (w: Word)
    requires run != []
    ensures w.word == ConcatText(run)
    ensures w.start == run[0].start && w.end == run[|run| - 1].end
    ensures forall k :: 0 <= k < |run| ==> run[k].conf <= w.conf
    ensures exists k :: 0 <= k < |run| && run[k].conf == w.conf
  {
    MaxConfIsMax(run);
    Word(ConcatText(run), run[0].start, run[|run| - 1].end, MaxConf(run))
  }

  /** Where the run that started at `s[0]` ends, given that `s[..j]` has been
      merged into `text`: it grows while the joined text occurs in the target. */
  function RunEnd(s: seq<Word>, target: string, text: string, j: nat): (e: nat)
    requires 1 <= j <= |s|
    ensures j <= e <= |s|
    decreases |s| - j
  {
    if j < |s| && IsSubstring(text + s[j].word, target) then RunEnd(s, target, text + s[j].word, j + 1)
    else j
  }

  /** The consecutive runs the first pass cuts the sorted records into. */
  function Runs(s: seq<Word>, target: string): (rs: seq<seq<Word>>)
    ensures forall k :: 0 <= k < |rs| ==> rs[k] != []
    decreases |s|
  {
    if s == [] then []
    else
      var e := RunEnd(s, target, s[0].word, 1);
      [s[..e]] + Runs(s[e..], target)
  }

  /** The first pass's output: one merged record per run. */
  function MergeRuns(s: seq<Word>, target: string): seq<Word> {
    var rs := Runs(s, target);
    seq(|rs|, k requires 0 <= k < |rs| => MergeRun(rs[k]))
  }

  /** The records concatenated back from a list of runs. */
  function Join(rs: seq<seq<Word>>): seq<Word> {
    if rs == [] then [] else rs[0] + Join(rs[1..])
  }

  /** `combined_word` covers `w`: `w`'s text occurs in it and their start times
      are less than 0.1 s apart. */
  predicate Covers(c: Word, w: Word) {
    IsSubstring(w.word, c.word) && Abs(w.start - c.start) < 0.1
  }

  predicate Included(w: Word, acc: seq<Word>) {
    exists q :: 0 <= q < |acc| && Covers(acc[q], w)
  }

  /** The second pass, over the original records in their original order:
      a record of more than one character is appended unless something in the
      list built so far already covers it. */
  function ReAdd(ws: seq<Word>, acc: seq<Word>): seq<Word>
    decreases |ws|
  {
    if ws == [] then acc
    else ReAdd(ws[1..], if |ws[0].word| > 1 && !Included(ws[0], acc) then acc + [ws[0]] else acc)
  }

  /** What `_combine_characters_to_words` returns. */
  function Combined(words: seq<Word>, target: string): seq<Word> {
    Sort(ReAdd(words, MergeRuns(Sort(words, ByStart), target)), ByLengthThenStart)
  }

  // ---------------------------------------------------------------------------
  // Properties of the first pass

  lemma MergeRunsCons(s: seq<Word>, target: string)
    requires s != []
    ensures var e := RunEnd(s, target, s[0].word, 1);
      MergeRuns(s, target) == [MergeRun(s[..e])] + MergeRuns(s[e..], target)
  {
    var e := RunEnd(s, target, s[0].word, 1);
    var rs := Runs(s, target);
    assert rs == [s[..e]] + Runs(s[e..], target);
    var m, m' := MergeRuns(s, target), MergeRuns(s[e..], target);
    assert |m| == |m'| + 1;
    forall k | 0 <= k < |m| ensures m[k] == ([MergeRun(s[..e])] + m')[k] {
      if k > 0 {
        assert rs[k] == Runs(s[e..], target)[k - 1];
      }
    }
  }

  /** The runs partition the sorted records: joined back they give the list. */
  lemma {:induction false} RunsPartition(s: seq<Word>, target: string)
    ensures Join(Runs(s, target)) == s
    decreases |s|
  {
    if s != [] {
      var e := RunEnd(s, target, s[0].word, 1);
      var rs := Runs(s, target);
      assert rs[1..] == Runs(s[e..], target);
      RunsPartition(s[e..], target);
      assert s[..e] + s[e..] == s;
    }
  }

  lemma {:induction false} JoinText(rs: seq<seq<Word>>)
    ensures ConcatText(Join(rs)) == Flatten(seq(|rs|, k requires 0 <= k < |rs| => ConcatText(rs[k])))
    decreases |rs|
  {
    var texts := seq(|rs|, k requires 0 <= k < |rs| => ConcatText(rs[k]));
    if rs != [] {
      JoinText(rs[1..]);
      ConcatTextAppend(rs[0], Join(rs[1..]));
      assert texts[1..] == seq(|rs[1..]|, k requires 0 <= k < |rs[1..]| => ConcatText(rs[1..][k]));
    }
  }

  /** Joining the merged records' texts gives the sorted records' texts joined:
      merging loses and adds no character. */
  lemma MergeRunsText(s: seq<Word>, target: string)
    ensures ConcatText(MergeRuns(s, target)) == ConcatText(s)
  {
    var rs := Runs(s, target);
    var m := MergeRuns(s, target);
    RunsPartition(s, target);
    JoinText(rs);
    var texts := seq(|rs|, k requires 0 <= k < |rs| => ConcatText(rs[k]));
    MergedTexts(m, texts);
  }

  lemma {:induction false} MergedTexts(m: seq<Word>, texts: seq<string>)
    requires |m| == |texts| && forall k :: 0 <= k < |m| ==> m[k].word == texts[k]
    ensures ConcatText(m) == Flatten(texts)
    decreases |m|
  {
    if m != [] {
      MergedTexts(m[1..], texts[1..]);
    }
  }

  lemma {:induction false} RunEndInTarget(s: seq<Word>, target: string, text: string, j: nat)
    requires 1 <= j <= |s| && text == ConcatText(s[..j])
    ensures var e := RunEnd(s, target, text, j);
      e > j ==> IsSubstring(ConcatText(s[..e]), target)
    decreases |s| - j
  {
    if j < |s| && IsSubstring(text + s[j].word, target) {
      assert s[..j + 1] == s[..j] + [s[j]];
      ConcatTextAppend(s[..j], [s[j]]);
      assert ConcatText([s[j]]) == s[j].word + ConcatText([]);
      RunEndInTarget(s, target, text + s[j].word, j + 1);
    }
  }

  /** A run stops short of the end only at a record whose text, joined to the
      run's, does not occur in the target. */
  lemma {:induction false} RunEndStops(s: seq<Word>, target: string, text: string, j: nat)
    requires 1 <= j <= |s| && text == ConcatText(s[..j])
    ensures var e := RunEnd(s, target, text, j);
      e < |s| ==> !IsSubstring(ConcatText(s[..e]) + s[e].word, target)
    decreases |s| - j
  {
    if j < |s| && IsSubstring(text + s[j].word, target) {
      assert s[..j + 1] == s[..j] + [s[j]];
      ConcatTextAppend(s[..j], [s[j]]);
      assert ConcatText([s[j]]) == s[j].word + ConcatText([]);
      RunEndStops(s, target, text + s[j].word, j + 1);
    }
  }

  /** Each run but the last ends because adding the next run's first record
      would give a text that does not occur in the target. */
  predicate StopsAtMismatch(rs: seq<seq<Word>>, target: string) {
    forall k :: 0 < k < |rs| && rs[k] != [] ==> !IsSubstring(ConcatText(rs[k - 1]) + rs[k][0].word, target)
  }

  /** The runs are as long as they can be. */
  lemma {:induction false} RunsMaximal(s: seq<Word>, target: string)
    ensures StopsAtMismatch(Runs(s, target), target)
    decreases |s|
  {
    if s != [] {
      var e := RunEnd(s, target, s[0].word, 1);
      var rs: seq<seq<Word>> := Runs(s, target);
      var rest: seq<seq<Word>> := Runs(s[e..], target);
      assert ConcatText(s[..1]) == s[0].word + ConcatText([]);
      RunEndStops(s, target, s[0].word, 1);
      RunsMaximal(s[e..], target);
      assert rs == [s[..e]] + rest;
      forall k | 0 < k < |rs| && rs[k] != [] ensures !IsSubstring(ConcatText(rs[k - 1]) + rs[k][0].word, target) {
        if k > 1 {
          assert rs[k - 1] == rest[k - 2] && rs[k] == rest[k - 1];
        } else {
          var t := s[e..];
          assert t != [] && e < |s|;
          var e' := RunEnd(t, target, t[0].word, 1);
          assert rest == [t[..e']] + Runs(t[e'..], target);
          assert rs[0] == s[..e] && rs[1] == t[..e'];
          assert rs[1][0] == t[0] == s[e];
        }
      }
    }
  }

  /** Every run of two or more records was merged because its joined text
      occurs in the raw target text. */
  lemma {:induction false} RunsInTarget(s: seq<Word>, target: string)
    ensures var rs := Runs(s, target);
      forall k :: 0 <= k < |rs| && |rs[k]| > 1 ==> IsSubstring(ConcatText(rs[k]), target)
    decreases |s|
  {
    if s != [] {
      var e := RunEnd(s, target, s[0].word, 1);
      var rs := Runs(s, target);
      assert ConcatText(s[..1]) == s[0].word + ConcatText([]);
      RunEndInTarget(s, target, s[0].word, 1);
      RunsInTarget(s[e..], target);
      assert rs[1..] == Runs(s[e..], target);
      forall k | 0 <= k < |rs| && |rs[k]| > 1 ensures IsSubstring(ConcatText(rs[k]), target) {
        if k > 0 {
          assert rs[k] == rs[1..][k - 1];
        }
      }
    }
  }

  // ---------------------------------------------------------------------------
  // Properties of the second pass and of the result

  /** What is already covered stays covered when records are appended. */
  lemma IncludedPrefix(w: Word, acc: seq<Word>, r: seq<Word>)
    requires |acc| <= |r| && r[..|acc|] == acc && Included(w, acc)
    ensures Included(w, r)
  {
    var q :| 0 <= q < |acc| && Covers(acc[q], w);
    assert r[q] == acc[q];
  }

  /** The second pass misses nothing: every original record of more than one
      character is covered by some record of the result, the one it was
      appended as or one that was there before it. */
  lemma {:induction false} ReAddComplete(ws: seq<Word>, acc: seq<Word>)
    ensures forall k :: 0 <= k < |ws| && |ws[k].word| > 1 ==> Included(ws[k], ReAdd(ws, acc))
    decreases |ws|
  {
    if ws != [] {
      var r := ReAdd(ws, acc);
      var w := ws[0];
      var added := |w.word| > 1 && !Included(w, acc);
      var acc' := if added then acc + [w] else acc;
      assert r == ReAdd(ws[1..], acc');
      ReAddComplete(ws[1..], acc');
      ReAddShape(ws[1..], acc');
      if |w.word| > 1 {
        if added {
          assert Covers(acc'[|acc|], w);
          IncludedPrefix(w, acc', r);
        } else {
          IncludedPrefix(w, acc, r);
        }
      }
      forall k | 0 <= k < |ws| && |ws[k].word| > 1 ensures Included(ws[k], r) {
        if k > 0 {
          assert ws[k] == ws[1..][k - 1];
        }
      }
    }
  }

  /** The second pass keeps the list it starts from as a prefix and appends
      some of the original records, in their original order, each longer than
      one character and not covered by anything before it. */
  lemma {:induction false} ReAddShape(ws: seq<Word>, acc: seq<Word>)
    ensures var r := ReAdd(ws, acc);
      && |acc| <= |r|
      && r[..|acc|] == acc
      && IsSubseq(r[|acc|..], ws)
      && (forall k :: |acc| <= k < |r| ==> |r[k].word| > 1 && !Included(r[k], r[..k]))
    decreases |ws|
  {
    var r := ReAdd(ws, acc);
    if ws == [] {
      assert r[|acc|..] == [];
    } else {
      var w := ws[0];
      var added := |w.word| > 1 && !Included(w, acc);
      var acc' := if added then acc + [w] else acc;
      ReAddShape(ws[1..], acc');
      assert r == ReAdd(ws[1..], acc');
      assert r[..|acc'|][..|acc|] == acc;
      assert r[..|acc|] == acc;
      if added {
        assert r[|acc|..] == [w] + r[|acc'|..];
        assert r[..|acc|] == acc && r[|acc|] == w;
      } else {
        assert IsSubseq(r[|acc|..], ws) by {
          if r[|acc|..] != [] {
            assert r[|acc|..] == r[|acc'|..];
          }
        }
      }
    }
  }

  /** The returned list is ordered by text length, longest first, and among
      equal lengths by start time; it is a permutation of the two passes'
      output, and records of equal length and start keep that output's order. */
  lemma CombinedOrdered(words: seq<Word>, target: string)
    ensures var c := Combined(words, target);
      && (forall i, j :: 0 <= i < j < |c| ==>
            |c[i].word| > |c[j].word| || (|c[i].word| == |c[j].word| && c[i].start <= c[j].start))
      && multiset(c) == multiset(ReAdd(words, MergeRuns(Sort(words, ByStart), target)))
      && forall k :: WithKey(c, ByLengthThenStart, k)
                     == WithKey(ReAdd(words, MergeRuns(Sort(words, ByStart), target)), ByLengthThenStart, k)
  {
    var c := Combined(words, target);
    var passes := ReAdd(words, MergeRuns(Sort(words, ByStart), target));
    forall k ensures WithKey(c, ByLengthThenStart, k) == WithKey(passes, ByLengthThenStart, k) {
      SortStable(passes, ByLengthThenStart, k);
    }
    forall i, j | 0 <= i < j < |c|
      ensures |c[i].word| > |c[j].word| || (|c[i].word| == |c[j].word| && c[i].start <= c[j].start)
    {
      assert KeyLe(KeyOf(ByLengthThenStart, c[i]), KeyOf(ByLengthThenStart, c[j]));
    }
  }

  /** One step of a run: the run so far grows by the next record. */
  lemma RunGrows(s: seq<Word>, target: string, text: string, n: nat)
    requires 1 <= n < |s| && IsSubstring(text + s[n].word, target)
    ensures RunEnd(s, target, text, n) == RunEnd(s, target, text + s[n].word, n + 1)
    ensures ConcatText(s[..n + 1]) == ConcatText(s[..n]) + s[n].word
    ensures MaxConf(s[..n + 1]) == Max(MaxConf(s[..n]), s[n].conf)
  {
    assert s[..n + 1] == s[..n] + [s[n]];
    assert s[..n + 1][..n] == s[..n];
    ConcatTextAppend(s[..n], [s[n]]);
    assert ConcatText([s[n]]) == s[n].word + ConcatText([]);
  }

  /** A run stops at the end of the list or at the first record whose text
      would make the joined text leave the target. */
  lemma RunEndsAt(s: seq<Word>, target: string, text: string, n: nat)
    requires 1 <= n <= |s| && (n == |s| || !IsSubstring(text + s[n].word, target))
    ensures RunEnd(s, target, text, n) == n
  {
  }

  /** One record of the second pass over the suffix `ws[k..]`. */
  lemma ReAddStep(ws: seq<Word>, k: nat, acc: seq<Word>)
    requires k < |ws|
    ensures ReAdd(ws[k..], acc)
         == ReAdd(ws[k + 1..], if |ws[k].word| > 1 && !Included(ws[k], acc) then acc + [ws[k]] else acc)
  {
    assert ws[k..][1..] == ws[k + 1..];
  }

  // ---------------------------------------------------------------------------
  // The methods

  /** The inner `j` loop of the first pass: the run starting at record `i`
      grows while the joined text occurs in the target; the record it merges
      into and the index after it. */
  method ExtendRun(sortedWords: seq<Word>, i: nat, targetText: string) returns (j: nat, mergedWord: Word)
    requires i < |sortedWords|
    ensures j == i + RunEnd(sortedWords[i..], targetText, sortedWords[i].word, 1)
    ensures mergedWord == MergeRun(sortedWords[i..j])
  {
    var currentWord := sortedWords[i];
    var currentText := currentWord.word;
    var currentStart := currentWord.start;
    var currentEnd := currentWord.end;
    var currentConf := currentWord.conf;
    ghost var rest := sortedWords[i..];
    assert rest[..1] == [currentWord];
    assert ConcatText([currentWord]) == currentText + ConcatText([]);

    j := i + 1;
    while j < |sortedWords|
      invariant i + 1 <= j <= |sortedWords|
      invariant currentText == ConcatText(rest[..j - i])
      invariant currentStart == rest[0].start && currentEnd == rest[j - i - 1].end
      invariant currentConf == MaxConf(rest[..j - i])
      invariant RunEnd(rest, targetText, currentText, j - i) == RunEnd(rest, targetText, currentWord.word, 1)
    {
      var nextWord := sortedWords[j];
      var nextText := nextWord.word;
      var combinedText := currentText + nextText;
      assert rest[j - i] == nextWord;
      if IsSubstring(combinedText, targetText) {
        RunGrows(rest, targetText, currentText, j - i);
        currentText := combinedText;
        currentEnd := nextWord.end;
        currentConf := Max(currentConf, nextWord.conf);
        j := j + 1;
      } else {
        break;
      }
    }
    assert j < |sortedWords| ==> rest[j - i] == sortedWords[j];
    RunEndsAt(rest, targetText, currentText, j - i);
    assert rest[..j - i] == sortedWords[i..j];
    mergedWord := Word(currentText, currentStart, currentEnd, currentConf);
  }

  /** The first pass: the outer `i` loop over the start-sorted records, each
      step merging one run. */
  method MergeAdjacent(sortedWords: seq<Word>, targetText: string) returns (combined: seq<Word>)
    ensures combined == MergeRuns(sortedWords, targetText)
  {
    combined := [];
    var i := 0;
    ghost var merged := MergeRuns(sortedWords, targetText);
    assert sortedWords[0..] == sortedWords;
    while i < |sortedWords|
      invariant 0 <= i <= |sortedWords|
      invariant merged == combined + MergeRuns(sortedWords[i..], targetText)
    {
      ghost var rest := sortedWords[i..];
      var j, mergedWord := ExtendRun(sortedWords, i, targetText);
      MergeRunsCons(rest, targetText);
      assert rest[j - i..] == sortedWords[j..];
      assert rest[..j - i] == sortedWords[i..j];
      AppendAssoc(combined, [mergedWord], MergeRuns(sortedWords[j..], targetText));
      combined := combined + [mergedWord];
      i := j;
    }
    assert sortedWords[|sortedWords|..] == [];
  }

  /** Whether some record of `combined` already covers `wordObj`: the inner
      loop of the second pass, with its `break`. */
  method IsIncluded(wordObj: Word, combined: seq<Word>) returns (alreadyIncluded: bool)
    ensures alreadyIncluded <==> Included(wordObj, combined)
  {
    alreadyIncluded := false;
    var m := 0;
    while m < |combined|
      invariant 0 <= m <= |combined|
      invariant !alreadyIncluded
      invariant forall q :: 0 <= q < m ==> !Covers(combined[q], wordObj)
    {
      var combinedWord := combined[m];
      if IsSubstring(wordObj.word, combinedWord.word) && Abs(wordObj.start - combinedWord.start) < 0.1 {
        alreadyIncluded := true;
        break;
      }
      m := m + 1;
    }
  }

  /** The second pass: the loop over the original records. */
  method AddBackWords(redundantWords: seq<Word>, merged: seq<Word>) returns (combined: seq<Word>)
    ensures combined == ReAdd(redundantWords, merged)
  {
    combined := merged;
    assert redundantWords[0..] == redundantWords;
    ghost var total := ReAdd(redundantWords, merged);
    var k := 0;
    while k < |redundantWords|
      invariant 0 <= k <= |redundantWords|
      invariant total == ReAdd(redundantWords[k..], combined)
    {
      var wordObj := redundantWords[k];
      ReAddStep(redundantWords, k, combined);
      if |wordObj.word| > 1 {
        var alreadyIncluded := IsIncluded(wordObj, combined);
        if !alreadyIncluded {
          combined := combined + [wordObj];
        }
      }
      k := k + 1;
    }
    assert redundantWords[|redundantWords|..] == [];
  }

  /** `_combine_characters_to_words`: sort by start, the two passes, and the
      final sort by length, longest first, then start. */
  method CombineCharactersToWords(redundantWords: seq<Word>, targetText: string)
    returns (combined: seq<Word>)
    ensures combined == Combined(redundantWords, targetText)
  {
    var sortedWords := Sort(redundantWords, ByStart);
    combined := MergeAdjacent(sortedWords, targetText);
    combined := AddBackWords(redundantWords, combined);
    combined := Sort(combined, ByLengthThenStart);
  }
}
