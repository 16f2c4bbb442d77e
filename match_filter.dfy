/** The module-level entry points `match_and_filter` and `batch_process`. */
module MatchFiltering {
  import opened Strings
  import opened Records
  import opened Cleaning
  import opened GreedyMatching
  import opened Combining
  import opened BestMatching

  /** The default `similarity_threshold`, of `match_and_filter` and of `TextMatcher`. */
  const DefaultThreshold: real := 0.8

  /** What `match_and_filter` returns: nothing for an empty record list or an
      empty target, else the best-match scan (`use_dp`, the default) or the
      greedy pass at the given threshold. */
  function MatchFilter(words: seq<Word>, target: string, useDp: bool, threshold: real, sim: Scorer): seq<Word> {
    if words == [] || target == [] then []
    else if useDp then BestMatch(words, target)
    else Greedy(words, CleanText(target), 0, threshold, sim)
  }

  /** What either mode promises about its output: nothing for an empty record
      list or an empty target; in the best-match mode the
      cleaned text of the result is a subsequence of the cleaned target, so it
      never holds more characters than the target, and the threshold and
      scorer play no part; in the greedy mode the result is a subsequence of
      the input records. */
  lemma MatchFilterResult(words: seq<Word>, target: string, useDp: bool, threshold: real, sim: Scorer)
    ensures var r := MatchFilter(words, target, useDp, threshold, sim);
      && (words == [] || target == [] ==> r == [])
      && (useDp ==> IsSubseq(CleanText(ConcatText(r)), CleanText(target)))
      && (useDp ==> |CleanText(ConcatText(r))| <= |CleanText(target)|)
      && (useDp ==> forall th: real, sc: Scorer :: MatchFilter(words, target, useDp, th, sc) == r)
      && (!useDp ==> IsSubseq(r, words))
  {
    var r := MatchFilter(words, target, useDp, threshold, sim);
    var t := CleanText(target);
    if useDp {
      if words == [] || target == [] {
        assert ConcatText(r) == [];
        assert CleanText(ConcatText(r)) == [];
      } else {
        var cs := Combined(words, target);
        ScanSpellsSubseq(cs, t, 0, {});
        assert t[0..] == t;
      }
      SubseqBounds(CleanText(ConcatText(r)), t);
    } else if words == [] || target == [] {
    } else {
      GreedySubseq(words, t, 0, threshold, sim);
    }
  }

  /** `match_and_filter`. */
  method MatchAndFilter(redundantJson: seq<Word>, targetText: string, useDp: bool, similarityThreshold: real,
                        sim: Scorer) returns (result: seq<Word>)
    ensures result == MatchFilter(redundantJson, targetText, useDp, similarityThreshold, sim)
  {
    if redundantJson == [] || targetText == [] {
      return [];
    }
    if useDp {
      result := FindBestMatchSequence(redundantJson, targetText);
    } else {
      result := GreedyMatch(redundantJson, targetText, similarityThreshold, sim);
    }
  }

  /** `batch_process`: `match_and_filter` on every pair, with the same
      keyword arguments, results in the pairs' order. */
  method BatchProcess(dataList: seq<(seq<Word>, string)>, useDp: bool, similarityThreshold: real, sim: Scorer)
    returns (results: seq<seq<Word>>)
    ensures |results| == |dataList|
    ensures forall k :: 0 <= k < |dataList| ==>
      results[k] == MatchFilter(dataList[k].0, dataList[k].1, useDp, similarityThreshold, sim)
  {
    results := [];
    for i := 0 to |dataList|
      invariant |results| == i
      invariant forall k :: 0 <= k < i ==>
        results[k] == MatchFilter(dataList[k].0, dataList[k].1, useDp, similarityThreshold, sim)
    {
      var (redundantJson, targetText) := dataList[i];
      var result := MatchAndFilter(redundantJson, targetText, useDp, similarityThreshold, sim);
      results := results + [result];
    }
  }

  /** `match_and_filter` with its default settings (`use_dp=True`,
      `similarity_threshold=0.8`): the best-match scan, on which the threshold
      and the scorer have no effect. */
  method MatchAndFilterDefaults(redundantJson: seq<Word>, targetText: string, sim: Scorer)
    returns (result: seq<Word>)
    ensures redundantJson == [] || targetText == [] ==> result == []
    ensures redundantJson != [] && targetText != [] ==> result == BestMatch(redundantJson, targetText)
  {
    result := MatchAndFilter(redundantJson, targetText, true, DefaultThreshold, sim);
  }
}
