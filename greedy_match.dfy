/** `TextMatcher.greedy_match`: one forward pass over the records with a
    cursor into the cleaned target, accepting a record when its cleaned text
    equals, or is similar enough to, the target text under the cursor. */
module GreedyMatching {
  import opened Strings
  import opened Records
  import opened Cleaning

  /** `calculate_similarity`: a ratio computed by a library matcher whose
      internals are not part of this model; the matcher takes it as a parameter. */
  type Scorer = (string, string) -> real

  /** What the matcher relies on from the library: a ratio in [0, 1] that is 1
      on equal strings. */
  ghost predicate IsRatio(sim: Scorer) {
    && (forall a, b :: 0.0 <= sim(a, b) <= 1.0)
    && (forall a :: sim(a, a) == 1.0)
  }

  /** Length of a record's cleaned text: how far accepting it moves the cursor. */
  function CleanLen(w: Word): nat {
    |CleanText(w.word)|
  }

  function SumClean(ws: seq<Word>): nat {
    if ws == [] then 0 else CleanLen(ws[0]) + SumClean(ws[1..])
  }

  lemma {:induction false} SumCleanAppend(a: seq<Word>, b: seq<Word>)
    ensures SumClean(a + b) == SumClean(a) + SumClean(b)
    decreases |a|
  {
    if a == [] {
      assert a + b == b;
    } else {
      assert (a + b)[1..] == a[1..] + b;
      SumCleanAppend(a[1..], b);
    }
  }

  /** The acceptance test at cursor `pos`: the cleaned word fits in the rest of
      the target and equals, or is similar enough to, the segment it covers. */
  predicate Accepts(w: string, t: string, pos: nat, threshold: real, sim: Scorer) {
    pos + |w| <= |t| && (w == t[pos..pos + |w|] || sim(w, t[pos..pos + |w|]) >= threshold)
  }

  /** The records the greedy pass keeps from `ws`, starting with the cursor at
      `pos` in the cleaned target `t`; it stops once the cursor reaches the end. */
  function Greedy(ws: seq<Word>, t: string, pos: nat, threshold: real, sim: Scorer): seq<Word>
    decreases |ws|
  {
    if ws == [] then []
    else if Accepts(CleanText(ws[0].word), t, pos, threshold, sim) then
      var next := pos + CleanLen(ws[0]);
      [ws[0]] + (if next >= |t| then [] else Greedy(ws[1..], t, next, threshold, sim))
    else Greedy(ws[1..], t, pos, threshold, sim)
  }

  /** The pass only drops records: it keeps the rest unchanged and in order. */
  lemma {:induction false} GreedySubseq(ws: seq<Word>, t: string, pos: nat, threshold: real, sim: Scorer)
    ensures IsSubseq(Greedy(ws, t, pos, threshold, sim), ws)
    decreases |ws|
  {
    if ws != [] {
      var r := Greedy(ws, t, pos, threshold, sim);
      if Accepts(CleanText(ws[0].word), t, pos, threshold, sim) {
        var next := pos + CleanLen(ws[0]);
        if next >= |t| {
          assert r[1..] == [];
        } else {
          GreedySubseq(ws[1..], t, next, threshold, sim);
          assert r[1..] == Greedy(ws[1..], t, next, threshold, sim);
        }
      } else {
        GreedySubseq(ws[1..], t, pos, threshold, sim);
      }
    }
  }

  /** The placement the greedy pass promises for its output `r`, read with a
      cursor starting at `pos`: each record passes the acceptance test at the
      cursor, the cursor then moves by its cleaned length, and the cursor is
      still short of the end of the target before every record but the first,
      so nothing is examined once it reaches the end. */
  predicate PlacedFrom(r: seq<Word>, t: string, pos: nat, threshold: real, sim: Scorer)
    decreases |r|
  {
    r == [] ||
      var next := pos + CleanLen(r[0]);
      && Accepts(CleanText(r[0].word), t, pos, threshold, sim)
      && (|r| > 1 ==> next < |t|)
      && PlacedFrom(r[1..], t, next, threshold, sim)
  }

  /** The greedy output is placed as promised, and the final cursor, `pos`
      plus the cleaned lengths of the kept records, never passes the end. */
  lemma {:induction false} GreedyPlacement(ws: seq<Word>, t: string, pos: nat, threshold: real, sim: Scorer)
    requires pos <= |t|
    ensures PlacedFrom(Greedy(ws, t, pos, threshold, sim), t, pos, threshold, sim)
    ensures pos + SumClean(Greedy(ws, t, pos, threshold, sim)) <= |t|
    decreases |ws|
  {
    if ws != [] {
      var r := Greedy(ws, t, pos, threshold, sim);
      if Accepts(CleanText(ws[0].word), t, pos, threshold, sim) {
        var next := pos + CleanLen(ws[0]);
        if next >= |t| {
          assert r == [ws[0]];
          assert r[1..] == [];
        } else {
          var rest := Greedy(ws[1..], t, next, threshold, sim);
          GreedyPlacement(ws[1..], t, next, threshold, sim);
          assert r == [ws[0]] + rest;
          assert r[1..] == rest;
        }
      } else {
        GreedyPlacement(ws[1..], t, pos, threshold, sim);
      }
    }
  }

  /** A record whose text is only punctuation, met before the target is used
      up, is kept without moving the cursor. */
  lemma GreedyKeepsPunctuation(ws: seq<Word>, t: string, pos: nat, threshold: real, sim: Scorer)
    requires ws != [] && CleanText(ws[0].word) == [] && pos < |t|
    ensures Greedy(ws, t, pos, threshold, sim) == [ws[0]] + Greedy(ws[1..], t, pos, threshold, sim)
  {
  }

  /** With a scorer that is a ratio and a threshold of at most 1, the exact
      comparison only saves a call: an exact match passes the similarity test too. */
  lemma AcceptsBySimilarity(w: string, t: string, pos: nat, threshold: real, sim: Scorer)
    requires IsRatio(sim) && threshold <= 1.0
    ensures Accepts(w, t, pos, threshold, sim)
        <==> pos + |w| <= |t| && sim(w, t[pos..pos + |w|]) >= threshold
  {
  }

  /** Cleaning the joined texts of a nonempty list of records: the first
      record's cleaned text followed by the rest's. */
  lemma CleanConcatFirst(ws: seq<Word>)
    requires ws != []
    ensures CleanText(ConcatText(ws)) == CleanText(ws[0].word) + CleanText(ConcatText(ws[1..]))
  {
    assert ConcatText(ws) == ws[0].word + ConcatText(ws[1..]);
    CleanTextAppend(ws[0].word, ConcatText(ws[1..]));
  }

  lemma CleanConcatNonEmpty(ws: seq<Word>)
    requires ws != [] && CleanLen(ws[0]) > 0
    ensures |CleanText(ConcatText(ws))| > 0
  {
    CleanConcatFirst(ws);
  }

  lemma SlicesOfSplit(t: string, pos: nat, w: string, rest: string)
    requires pos <= |t| && t[pos..] == w + rest
    ensures pos + |w| <= |t| && t[pos..pos + |w|] == w && t[pos + |w|..] == rest
  {
    assert t[pos..pos + |w|] == (w + rest)[..|w|];
    assert t[pos + |w|..] == (w + rest)[|w|..];
  }

  /** A record that passes the test at the cursor is kept, and the pass goes
      on from the moved cursor unless that is the end of the target. */
  lemma GreedyKeeps(ws: seq<Word>, t: string, pos: nat, threshold: real, sim: Scorer)
    requires ws != [] && Accepts(CleanText(ws[0].word), t, pos, threshold, sim)
    ensures var next := pos + CleanLen(ws[0]);
      && (next >= |t| ==> Greedy(ws, t, pos, threshold, sim) == [ws[0]])
      && (next < |t| ==> Greedy(ws, t, pos, threshold, sim) == [ws[0]] + Greedy(ws[1..], t, next, threshold, sim))
  {
  }

  /** A single record that passes the test is kept, whatever the cursor does. */
  lemma GreedyKeepsOnly(ws: seq<Word>, t: string, pos: nat, threshold: real, sim: Scorer)
    requires |ws| == 1 && Accepts(CleanText(ws[0].word), t, pos, threshold, sim)
    ensures Greedy(ws, t, pos, threshold, sim) == ws
  {
    GreedyKeeps(ws, t, pos, threshold, sim);
    assert ws[1..] == [];
  }

  /** A record that passes the test before the end, followed by records the
      pass keeps from the moved cursor: all of them are kept. */
  lemma GreedyKeepsAll(ws: seq<Word>, t: string, pos: nat, threshold: real, sim: Scorer)
    requires ws != [] && Accepts(CleanText(ws[0].word), t, pos, threshold, sim)
    requires pos + CleanLen(ws[0]) < |t|
    requires Greedy(ws[1..], t, pos + CleanLen(ws[0]), threshold, sim) == ws[1..]
    ensures Greedy(ws, t, pos, threshold, sim) == ws
  {
    GreedyKeeps(ws, t, pos, threshold, sim);
    assert ws == [ws[0]] + ws[1..];
  }

  /** Exact reconstruction: when the records' cleaned texts, none of them
      empty, spell out the rest of the target, every record is kept. */
  lemma {:induction false} GreedyExact(ws: seq<Word>, t: string, pos: nat, threshold: real, sim: Scorer)
    requires pos <= |t|
    requires forall k :: 0 <= k < |ws| ==> CleanLen(ws[k]) > 0
    requires CleanText(ConcatText(ws)) == t[pos..]
    ensures Greedy(ws, t, pos, threshold, sim) == ws
    decreases |ws|
  {
    if ws != [] {
      var w := CleanText(ws[0].word);
      var rest := CleanText(ConcatText(ws[1..]));
      CleanConcatFirst(ws);
      SlicesOfSplit(t, pos, w, rest);
      assert Accepts(w, t, pos, threshold, sim);
      if ws[1..] == [] {
        GreedyKeepsOnly(ws, t, pos, threshold, sim);
      } else {
        CleanConcatNonEmpty(ws[1..]);
        GreedyExact(ws[1..], t, pos + |w|, threshold, sim);
        GreedyKeepsAll(ws, t, pos, threshold, sim);
      }
    }
  }

  /** The record at `i` passes the test and the cursor then reaches the end:
      the pass over the suffix `ws[i..]` keeps that record and stops. */
  lemma GreedyAcceptLast(ws: seq<Word>, i: nat, t: string, pos: nat, threshold: real, sim: Scorer,
                         done: seq<Word>)
    requires i < |ws| && Accepts(CleanText(ws[i].word), t, pos, threshold, sim)
    requires pos + CleanLen(ws[i]) >= |t|
    ensures done + Greedy(ws[i..], t, pos, threshold, sim) == done + [ws[i]]
  {
    assert ws[i..][0] == ws[i];
    GreedyKeeps(ws[i..], t, pos, threshold, sim);
  }

  /** The record at `i` passes the test and the cursor, moved to `next`, is
      short of the end: the pass keeps the record and goes on from `next`. */
  lemma GreedyAcceptNext(ws: seq<Word>, i: nat, t: string, pos: nat, threshold: real, sim: Scorer,
                         done: seq<Word>, next: nat)
    requires i < |ws| && Accepts(CleanText(ws[i].word), t, pos, threshold, sim)
    requires next == pos + CleanLen(ws[i]) && next < |t|
    ensures done + Greedy(ws[i..], t, pos, threshold, sim)
         == (done + [ws[i]]) + Greedy(ws[i + 1..], t, next, threshold, sim)
  {
    assert ws[i..][0] == ws[i] && ws[i..][1..] == ws[i + 1..];
    GreedyKeeps(ws[i..], t, pos, threshold, sim);
    AppendAssoc(done, [ws[i]], Greedy(ws[i + 1..], t, next, threshold, sim));
  }

  /** One iteration of the pass over the suffix `ws[i..]`: the record at `i`
      is dropped and the cursor stays. */
  lemma GreedyRejectStep(ws: seq<Word>, i: nat, t: string, pos: nat, threshold: real, sim: Scorer,
                         done: seq<Word>)
    requires i < |ws| && !Accepts(CleanText(ws[i].word), t, pos, threshold, sim)
    ensures done + Greedy(ws[i..], t, pos, threshold, sim) == done + Greedy(ws[i + 1..], t, pos, threshold, sim)
  {
    assert ws[i..][1..] == ws[i + 1..];
  }

  /** The test in the body of `greedy_match`'s loop: the cleaned word fits
      before the end of the cleaned target and equals, or is similar enough
      to, the segment under the cursor. */
  method Acceptable(word: string, cleanedTarget: string, targetPos: nat, threshold: real, sim: Scorer)
    returns (accepted: bool)
    ensures accepted == Accepts(word, cleanedTarget, targetPos, threshold, sim)
  {
    var wordLen := |word|;
    accepted := false;
    if targetPos + wordLen <= |cleanedTarget| {
      var targetSegment := cleanedTarget[targetPos..targetPos + wordLen];
      if word == targetSegment || sim(word, targetSegment) >= threshold {
        accepted := true;
      }
    }
  }

  /** `greedy_match`: the for loop with its early `break`. */
  method GreedyMatch(words: seq<Word>, targetText: string, threshold: real, sim: Scorer)
    returns (result: seq<Word>)
    ensures result == Greedy(words, CleanText(targetText), 0, threshold, sim)
  {
    var cleanedTarget := CleanText(targetText);
    result := [];
    var targetPos := 0;
    var i := 0;
    ghost var total := Greedy(words, cleanedTarget, 0, threshold, sim);
    while i < |words|
      invariant 0 <= i <= |words|
      invariant targetPos == SumClean(result) <= |cleanedTarget|
      invariant total == result + Greedy(words[i..], cleanedTarget, targetPos, threshold, sim)
    {
      var word := CleanText(words[i].word);
      var wordLen := |word|;
      var accepted := Acceptable(word, cleanedTarget, targetPos, threshold, sim);
      if accepted {
        SumCleanAppend(result, [words[i]]);
        assert SumClean([words[i]]) == wordLen + SumClean([]);
        ghost var done, pos := result, targetPos;
        result := result + [words[i]];
        targetPos := targetPos + wordLen;
        if targetPos >= |cleanedTarget| {
          GreedyAcceptLast(words, i, cleanedTarget, pos, threshold, sim, done);
          break;
        }
        GreedyAcceptNext(words, i, cleanedTarget, pos, threshold, sim, done, targetPos);
      } else {
        GreedyRejectStep(words, i, cleanedTarget, targetPos, threshold, sim, result);
      }
      i := i + 1;
    }
    assert words[|words|..] == [];
  }
}
