/** `TextMatcher.find_best_match_sequence`: walks a cursor over the cleaned
    target and, at each position, takes the longest unused combined record
    whose cleaned text matches there exactly; with no match it skips one
    character. */
module BestMatching {
  import opened Strings
  import opened Records
  import opened Cleaning
  import opened Combining

  /** Length of the cleaned text of combined record `i`. */
  function PieceLen(cs: seq<Word>, i: nat): nat
    requires i < |cs|
  {
    |CleanText(cs[i].word)|
  }

  /** Record `i` may be taken at cursor `p`: unused, with a nonempty cleaned
      text that equals the target segment under the cursor. */
  predicate Candidate(cs: seq<Word>, used: set<int>, t: string, p: nat, i: nat)
    requires i < |cs|
  {
    var w := CleanText(cs[i].word);
    && i !in used
    && |w| > 0
    && p + |w| <= |t|
    && w == t[p..p + |w|]
  }

  /** The replacement test of the inner loop, against the best so far. */
  predicate Better(cs: seq<Word>, i: nat, best: Option<nat>)
    requires i < |cs| && (best.Some? ==> best.value < |cs|)
  {
    var bestLen := if best.None? then 0 else PieceLen(cs, best.value);
    || PieceLen(cs, i) > bestLen
    || (PieceLen(cs, i) == bestLen && best.Some? && cs[i].conf > cs[best.value].conf)
    || (PieceLen(cs, i) == bestLen && best.None?)
  }

  /** The best match among the records `cs[..n]`, as the inner loop leaves it
      after `n` iterations. */
  function BestIn(cs: seq<Word>, used: set<int>, t: string, p: nat, n: nat): (b: Option<nat>)
    requires n <= |cs|
    ensures b.Some? ==> b.value < n && Candidate(cs, used, t, p, b.value)
  {
    if n == 0 then None
    else
      var prev := BestIn(cs, used, t, p, n - 1);
      if Candidate(cs, used, t, p, n - 1) && Better(cs, n - 1, prev) then Some(n - 1) else prev
  }

  /** Record `b` is at least as good a choice as record `i`: longer, or as
      long with higher confidence, or tied on both and earlier in the list. */
  predicate Dominates(cs: seq<Word>, b: nat, i: nat)
    requires b < |cs| && i < |cs|
  {
    || PieceLen(cs, b) > PieceLen(cs, i)
    || (PieceLen(cs, b) == PieceLen(cs, i) && cs[b].conf > cs[i].conf)
    || (PieceLen(cs, b) == PieceLen(cs, i) && cs[b].conf == cs[i].conf && b <= i)
  }

  /** The inner loop finds nothing exactly when there is no candidate, and
      otherwise the first candidate with the longest cleaned text and, among
      those, the highest confidence. */
  lemma {:induction false} BestInIsBest(cs: seq<Word>, used: set<int>, t: string, p: nat, n: nat)
    requires n <= |cs|
    ensures BestIn(cs, used, t, p, n).None? <==> forall i :: 0 <= i < n ==> !Candidate(cs, used, t, p, i)
    ensures BestIn(cs, used, t, p, n).Some? ==>
      forall i :: 0 <= i < n && Candidate(cs, used, t, p, i) ==> Dominates(cs, BestIn(cs, used, t, p, n).value, i)
  {
    if n > 0 {
      var prev := BestIn(cs, used, t, p, n - 1);
      BestInIsBest(cs, used, t, p, n - 1);
      if Candidate(cs, used, t, p, n - 1) && Better(cs, n - 1, prev) {
        if prev.Some? {
          var b := prev.value;
          forall i | 0 <= i < n && Candidate(cs, used, t, p, i) ensures Dominates(cs, n - 1, i) {
            if i < n - 1 {
              assert Dominates(cs, b, i);
            }
          }
        }
      } else if Candidate(cs, used, t, p, n - 1) {
        assert Dominates(cs, prev.value, n - 1);
      }
    }
  }

  /** Where a record was taken: its index among the combined records and the
      cursor position it was matched at. */
  datatype Placement = Placement(index: nat, pos: nat)

  /** The outer loop from cursor `p` with the indices in `used` taken: the
      placements it makes, in order. */
  function Scan(cs: seq<Word>, t: string, p: nat, used: set<int>): (tr: seq<Placement>)
    ensures forall k :: 0 <= k < |tr| ==> tr[k].index < |cs|
    decreases |t| - p
  {
    if p >= |t| then []
    else
      match BestIn(cs, used, t, p, |cs|)
      case None => Scan(cs, t, p + 1, used)
      case Some(b) => [Placement(b, p)] + Scan(cs, t, p + PieceLen(cs, b), used + {b})
  }

  /** The records a list of placements takes, in order. */
  function Chosen(cs: seq<Word>, tr: seq<Placement>): seq<Word>
    requires forall k :: 0 <= k < |tr| ==> tr[k].index < |cs|
  {
    if tr == [] then [] else [cs[tr[0].index]] + Chosen(cs, tr[1..])
  }

  /** What `find_best_match_sequence` returns. */
  function BestMatch(words: seq<Word>, target: string): seq<Word> {
    var cs := Combined(words, target);
    Chosen(cs, Scan(cs, CleanText(target), 0, {}))
  }

  /** Every placement of the scan takes a record unused at the start whose
      cleaned text is exactly the target segment at its position, at or after
      the starting cursor; and there are at most as many placements as
      characters left. */
  lemma {:induction false} ScanPlacements(cs: seq<Word>, t: string, p: nat, used: set<int>)
    requires p <= |t|
    ensures var tr := Scan(cs, t, p, used);
      && |tr| <= |t| - p
      && (forall k :: 0 <= k < |tr| ==> p <= tr[k].pos && Candidate(cs, used, t, tr[k].pos, tr[k].index))
    decreases |t| - p
  {
    if p < |t| {
      var tr := Scan(cs, t, p, used);
      match BestIn(cs, used, t, p, |cs|)
      case None =>
        ScanPlacements(cs, t, p + 1, used);
      case Some(b) =>
        var next := p + PieceLen(cs, b);
        var rest := Scan(cs, t, next, used + {b});
        ScanPlacements(cs, t, next, used + {b});
        assert tr == [Placement(b, p)] + rest;
        forall k | 0 <= k < |tr| ensures p <= tr[k].pos && Candidate(cs, used, t, tr[k].pos, tr[k].index) {
          if k > 0 {
            assert tr[k] == rest[k - 1];
            assert Candidate(cs, used + {b}, t, rest[k - 1].pos, rest[k - 1].index);
          }
        }
    }
  }

  /** Placements whose matched segments follow one another without overlap
      and which take pairwise different records. */
  predicate Disjoint(cs: seq<Word>, tr: seq<Placement>)
    requires forall k :: 0 <= k < |tr| ==> tr[k].index < |cs|
  {
    forall k, k' :: 0 <= k < k' < |tr| ==>
      tr[k].pos + PieceLen(cs, tr[k].index) <= tr[k'].pos && tr[k].index != tr[k'].index
  }

  /** A placement ending before every later one and taking a record none of
      them takes extends a disjoint list. */
  lemma DisjointCons(cs: seq<Word>, first: Placement, rest: seq<Placement>)
    requires first.index < |cs| && forall k :: 0 <= k < |rest| ==> rest[k].index < |cs|
    requires Disjoint(cs, rest)
    requires forall k :: 0 <= k < |rest| ==>
      first.pos + PieceLen(cs, first.index) <= rest[k].pos && rest[k].index != first.index
    ensures Disjoint(cs, [first] + rest)
  {
    var tr := [first] + rest;
    forall k, k' | 0 <= k < k' < |tr|
      ensures tr[k].pos + PieceLen(cs, tr[k].index) <= tr[k'].pos && tr[k].index != tr[k'].index
    {
      assert tr[k'] == rest[k' - 1];
      if k > 0 {
        assert tr[k] == rest[k - 1];
      }
    }
  }

  /** Positions only increase and matched segments never overlap, and no
      record is taken twice. */
  lemma {:induction false} ScanDisjoint(cs: seq<Word>, t: string, p: nat, used: set<int>)
    requires p <= |t|
    ensures Disjoint(cs, Scan(cs, t, p, used))
    decreases |t| - p
  {
    if p < |t| {
      match BestIn(cs, used, t, p, |cs|)
      case None =>
        ScanDisjoint(cs, t, p + 1, used);
        assert Scan(cs, t, p, used) == Scan(cs, t, p + 1, used);
      case Some(b) =>
        var next := p + PieceLen(cs, b);
        var rest := Scan(cs, t, next, used + {b});
        ScanDisjoint(cs, t, next, used + {b});
        ScanPlacements(cs, t, next, used + {b});
        assert forall k :: 0 <= k < |rest| ==> Candidate(cs, used + {b}, t, rest[k].pos, rest[k].index);
        DisjointCons(cs, Placement(b, p), rest);
        assert Scan(cs, t, p, used) == [Placement(b, p)] + rest;
    }
  }

  /** The cleaned text of what the scan takes is a subsequence of the rest of
      the cleaned target: the records' texts appear there in order. */
  lemma {:induction false} ScanSpellsSubseq(cs: seq<Word>, t: string, p: nat, used: set<int>)
    requires p <= |t|
    ensures IsSubseq(CleanText(ConcatText(Chosen(cs, Scan(cs, t, p, used)))), t[p..])
    decreases |t| - p
  {
    var tr := Scan(cs, t, p, used);
    if p == |t| {
      assert tr == [];
      assert Chosen(cs, tr) == [];
    } else {
      match BestIn(cs, used, t, p, |cs|)
      case None =>
        ScanSpellsSubseq(cs, t, p + 1, used);
        var a := CleanText(ConcatText(Chosen(cs, Scan(cs, t, p + 1, used))));
        assert t[p..][1..] == t[p + 1..];
        assert IsSubseq(a, t[p..]);
      case Some(b) =>
        var next := p + PieceLen(cs, b);
        var rest := Scan(cs, t, next, used + {b});
        var w := CleanText(cs[b].word);
        ScanSpellsSubseq(cs, t, next, used + {b});
        assert tr == [Placement(b, p)] + rest;
        var chosen := Chosen(cs, tr);
        assert tr[1..] == rest;
        assert ConcatText(chosen) == cs[b].word + ConcatText(Chosen(cs, rest));
        CleanTextAppend(cs[b].word, ConcatText(Chosen(cs, rest)));
        assert t[p..] == w + t[next..];
        SubseqPrepend(w, CleanText(ConcatText(Chosen(cs, rest))), t[next..]);
    }
  }

  /** When no unused record matches at the cursor, the scan skips one character. */
  lemma ScanSkip(cs: seq<Word>, t: string, p: nat, used: set<int>)
    requires p < |t| && BestIn(cs, used, t, p, |cs|).None?
    ensures Scan(cs, t, p, used) == Scan(cs, t, p + 1, used)
  {
  }

  /** When the inner loop picks record `b`, the scan takes it and moves past it. */
  lemma ScanTake(cs: seq<Word>, t: string, p: nat, used: set<int>, b: nat, w: Word, next: nat, done: seq<Word>)
    requires p < |t| && BestIn(cs, used, t, p, |cs|) == Some(b) && w == cs[b] && next == p + PieceLen(cs, b)
    ensures done + Chosen(cs, Scan(cs, t, p, used)) == (done + [w]) + Chosen(cs, Scan(cs, t, next, used + {b}))
  {
    var rest := Scan(cs, t, next, used + {b});
    assert Scan(cs, t, p, used) == [Placement(b, p)] + rest;
    assert ([Placement(b, p)] + rest)[1..] == rest;
    AppendAssoc(done, [cs[b]], Chosen(cs, rest));
  }

  /** The inner `for` of `find_best_match_sequence`: the best unused record
      at cursor `targetPos`, as the record, its cleaned length and its index
      (`None`, 0 and -1 when there is none). */
  method BestAt(combinedWords: seq<Word>, usedIndices: set<int>, cleanedTarget: string, targetPos: nat)
    returns (bestMatch: Option<Word>, bestMatchLen: nat, bestIndex: int)
    ensures var b := BestIn(combinedWords, usedIndices, cleanedTarget, targetPos, |combinedWords|);
      && (b.None? ==> bestMatch.None? && bestMatchLen == 0 && bestIndex == -1)
      && (b.Some? ==> bestMatch == Some(combinedWords[b.value]) && bestMatchLen == PieceLen(combinedWords, b.value)
                      && bestIndex == b.value)
  {
    bestMatch := None;
    bestMatchLen := 0;
    bestIndex := -1;
    ghost var best: Option<nat> := None;
    for i := 0 to |combinedWords|
      invariant best == BestIn(combinedWords, usedIndices, cleanedTarget, targetPos, i)
      invariant best.None? ==> bestMatch.None? && bestMatchLen == 0 && bestIndex == -1
      invariant best.Some? ==> && best.value < |combinedWords| && bestMatch == Some(combinedWords[best.value])
                               && bestMatchLen == PieceLen(combinedWords, best.value) && bestIndex == best.value
    {
      if i in usedIndices {
        continue;
      }
      var word := CleanText(combinedWords[i].word);
      var wordLen := |word|;
      if wordLen == 0 {
        continue;
      }
      if targetPos + wordLen <= |cleanedTarget| {
        var targetSegment := cleanedTarget[targetPos..targetPos + wordLen];
        if word == targetSegment {
          assert Candidate(combinedWords, usedIndices, cleanedTarget, targetPos, i);
          if || wordLen > bestMatchLen
             || (wordLen == bestMatchLen && bestMatch.Some? && combinedWords[i].conf > bestMatch.value.conf)
             || (wordLen == bestMatchLen && bestMatch.None?)
          {
            bestMatch := Some(combinedWords[i]);
            bestMatchLen := wordLen;
            bestIndex := i;
            best := Some(i);
          }
        }
      }
    }
  }

  /** The outer `while` of `find_best_match_sequence`: from the start of the
      cleaned target, take the best unused record at the cursor and move past
      it, or skip one character when there is none. */
  method MatchAlong(combinedWords: seq<Word>, cleanedTarget: string) returns (result: seq<Word>)
    ensures result == Chosen(combinedWords, Scan(combinedWords, cleanedTarget, 0, {}))
  {
    result := [];
    var targetPos := 0;
    var usedIndices: set<int> := {};
    ghost var total := Chosen(combinedWords, Scan(combinedWords, cleanedTarget, 0, {}));
    while targetPos < |cleanedTarget|
      invariant total == result + Chosen(combinedWords, Scan(combinedWords, cleanedTarget, targetPos, usedIndices))
      decreases |cleanedTarget| - targetPos
    {
      var bestMatch, bestMatchLen, bestIndex := BestAt(combinedWords, usedIndices, cleanedTarget, targetPos);
      if bestMatch.Some? {
        ScanTake(combinedWords, cleanedTarget, targetPos, usedIndices, bestIndex, bestMatch.value,
                 targetPos + bestMatchLen, result);
        result := result + [bestMatch.value];
        usedIndices := usedIndices + {bestIndex};
        targetPos := targetPos + bestMatchLen;
      } else {
        ScanSkip(combinedWords, cleanedTarget, targetPos, usedIndices);
        targetPos := targetPos + 1;
      }
    }
    assert Scan(combinedWords, cleanedTarget, targetPos, usedIndices) == [];
  }

  /** `find_best_match_sequence`: combine the records, clean the target and
      run the outer loop. */
  method FindBestMatchSequence(redundantWords: seq<Word>, targetText: string) returns (result: seq<Word>)
    ensures result == BestMatch(redundantWords, targetText)
  {
    var combinedWords := CombineCharactersToWords(redundantWords, targetText);
    var cleanedTarget := CleanText(targetText);
    result := MatchAlong(combinedWords, cleanedTarget);
  }
}
