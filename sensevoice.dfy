/** `TranscriptionService._convert_sensevoice_to_word_level`: removes
    SenseVoice's `<|...|>` markers, trims the text, splits it into words
    at whitespace and at CJK ideographs (an ideograph at the start, after
    whitespace or after another ideograph is a word on its own; one after any
    other character starts a new word that the following non-space,
    non-ideograph characters join) and
    gives every word a timestamp pair from the recogniser. */
module SenseVoice {
  import opened Strings
  import opened Records

  // ---------------------------------------------------------------------------
  // Marker removal: `re.sub(r'<\|[^|]*\|>', '', text)`

  /** The first `|` at or after `k`, or `|s|` when there is none. */
  function BarFrom(s: string, k: nat): (j: nat)
    requires k <= |s|
    ensures k <= j <= |s|
    ensures j < |s| ==> s[j] == '|'
    ensures forall m :: k <= m < j ==> s[m] != '|'
    decreases |s| - k
  {
    if k == |s| || s[k] == '|' then k else BarFrom(s, k + 1)
  }

  /** The length of the marker `<|`, then characters other than `|`, then
      `|>`, that `s` starts with, if it starts with one. */
  function TagLen(s: string): (n: Option<nat>)
    ensures n.Some? ==>
      && 4 <= n.value <= |s|
      && s[..2] == "<|" && s[n.value - 2..n.value] == "|>"
      && forall m :: 2 <= m < n.value - 2 ==> s[m] != '|'
  {
    if |s| >= 2 && s[0] == '<' && s[1] == '|' then
      var j := BarFrom(s, 2);
      if j + 1 < |s| && s[j + 1] == '>' then Some(j + 2) else None
    else None
  }

  /** `re.sub(r'<\|[^|]*\|>', '', s)`: one left-to-right pass that deletes
      each marker met, resuming after it. It never lengthens the text, and a
      text that does not start with `<` keeps its first character. */
  function StripTags(s: string): (r: string)
    ensures |r| <= |s|
    ensures s != [] && s[0] != '<' ==> r != [] && r[0] == s[0]
    decreases |s|
  {
    if s == [] then []
    else
      match TagLen(s)
      case Some(n) => StripTags(s[n..])
      case None => [s[0]] + StripTags(s[1..])
  }

  lemma {:induction false} SubseqSuffix<T>(b: seq<T>, n: nat)
    requires n <= |b|
    ensures IsSubseq(b[n..], b)
    decreases n
  {
    if n == 0 {
      SubseqRefl(b);
    } else {
      SubseqSuffix(b[1..], n - 1);
      assert b[1..][n - 1..] == b[n..];
    }
  }

  /** Removing markers only deletes characters. */
  lemma {:induction false} StripTagsSubseq(s: string)
    ensures IsSubseq(StripTags(s), s)
    decreases |s|
  {
    if s != [] {
      match TagLen(s)
      case Some(n) =>
        StripTagsSubseq(s[n..]);
        SubseqSuffix(s, n);
        SubseqTrans(StripTags(s[n..]), s[n..], s);
      case None =>
        StripTagsSubseq(s[1..]);
    }
  }

  /** Text in which `<` is never followed by `|` holds no marker and is kept. */
  lemma {:induction false} StripTagsNoMarker(s: string)
    requires forall k :: 0 <= k < |s| - 1 ==> !(s[k] == '<' && s[k + 1] == '|')
    ensures StripTags(s) == s
    decreases |s|
  {
    if s != [] {
      assert TagLen(s).None? by {
        if |s| >= 2 {
          assert !(s[0] == '<' && s[1] == '|');
        }
      }
      StripTagsNoMarker(s[1..]);
    }
  }

  /** A marker at the front is deleted and the pass resumes right after it. */
  lemma StripTagsMarker(x: string, r: string)
    requires forall m :: 0 <= m < |x| ==> x[m] != '|'
    ensures StripTags("<|" + x + "|>" + r) == StripTags(r)
  {
    var s := "<|" + x + "|>" + r;
    var j := |x| + 2;
    assert s[j] == '|' && s[j + 1] == '>';
    assert forall m :: 2 <= m < j ==> s[m] == x[m - 2];
    var b := BarFrom(s, 2);
    assert b == j;
    assert s[j + 2..] == r;
  }

  /** `|y|>` with no `|` or `<` in `y` holds no marker. */
  lemma StripTagsBarTail(y: string)
    requires forall m :: 0 <= m < |y| ==> y[m] != '|' && y[m] != '<'
    ensures StripTags("|" + y + "|>") == "|" + y + "|>"
  {
    var rest := "|" + y + "|>";
    assert '<' !in y;
    assert '<' !in rest;
    StripTagsNoMarker(rest);
  }

  /** A first character other than `<` is kept and the pass goes on after it. */
  lemma StripTagsPlainFirst(t: string)
    requires t != [] && t[0] != '<'
    ensures StripTags(t) == [t[0]] + StripTags(t[1..])
  {
    assert TagLen(t).None?;
  }

  /** Text without `<` passes through unchanged and does not disturb the
      pass over what follows it. */
  lemma {:induction false} StripTagsPlainPrefix(p: string, s: string)
    requires '<' !in p
    ensures StripTags(p + s) == p + StripTags(s)
    decreases |p|
  {
    if p == [] {
      assert p + s == s;
    } else {
      var c, p' := p[0], p[1..];
      assert p == [c] + p';
      assert c != '<' && '<' !in p';
      var ps := p + s;
      assert ps == [c] + (p' + s);
      StripTagsPlainFirst(ps);
      assert ps[1..] == p' + s;
      StripTagsPlainPrefix(p', s);
      assert [c] + (p' + StripTags(s)) == p + StripTags(s);
    }
  }

  /** A marker after text without `<` is deleted, wherever it occurs
      (`ab<|zh|>cd` becomes `abcd`). */
  lemma StripTagsMarkerAfter(p: string, x: string, r: string)
    requires '<' !in p
    requires forall m :: 0 <= m < |x| ==> x[m] != '|'
    ensures StripTags(p + ("<|" + x + "|>" + r)) == p + StripTags(r)
  {
    StripTagsPlainPrefix(p, "<|" + x + "|>" + r);
    StripTagsMarker(x, r);
  }

  /** The pass does not rescan what it has produced: in `<<|x|>|y|>` the
      inner marker goes and the outer one, completed by the deletion, stays
      (so `<<|a|>|b|>` becomes `<|b|>`). */
  lemma StripTagsSinglePass(x: string, y: string)
    requires forall m :: 0 <= m < |x| ==> x[m] != '|'
    requires forall m :: 0 <= m < |y| ==> y[m] != '|' && y[m] != '<'
    ensures StripTags("<" + ("<|" + x + "|>" + ("|" + y + "|>"))) == "<" + ("|" + y + "|>")
  {
    var rest := "|" + y + "|>";
    var s := "<" + ("<|" + x + "|>" + rest);
    assert s[0] == '<' && s[1] == '<';
    assert TagLen(s).None?;
    assert s[1..] == "<|" + x + "|>" + rest;
    StripTagsMarker(x, rest);
    StripTagsBarTail(y);
    assert StripTags(s) == [s[0]] + StripTags(s[1..]);
  }

  // ---------------------------------------------------------------------------
  // `str.strip()`

  /** `s` without its leading whitespace. */
  function TrimStart(s: string): (r: string)
    ensures |r| <= |s| && r == s[|s| - |r|..]
    ensures forall k :: 0 <= k < |s| - |r| ==> IsSpace(s[k])
    ensures r != [] ==> !IsSpace(r[0])
    decreases |s|
  {
    if s != [] && IsSpace(s[0]) then TrimStart(s[1..]) else s
  }

  /** `s` without its trailing whitespace. */
  function TrimEnd(s: string): (r: string)
    ensures |r| <= |s| && r == s[..|r|]
    ensures forall k :: |r| <= k < |s| ==> IsSpace(s[k])
    ensures r != [] ==> !IsSpace(r[|r| - 1])
    decreases |s|
  {
    if s != [] && IsSpace(s[|s| - 1]) then TrimEnd(s[..|s| - 1]) else s
  }

  /** `str.strip()`: neither end of the result is whitespace. */
  function Strip(s: string): (r: string)
    ensures |r| <= |s|
    ensures r != [] ==> !IsSpace(r[0]) && !IsSpace(r[|r| - 1])
  {
    var t := TrimStart(s);
    var r := TrimEnd(t);
    assert r != [] ==> r[0] == t[0];
    r
  }

  /** The non-whitespace characters of `s`, in order. */
  function RemoveSpaces(s: string): string {
    if s == [] then [] else RemoveSpaces(s[..|s| - 1]) + (if IsSpace(s[|s| - 1]) then [] else [s[|s| - 1]])
  }

  lemma {:induction false} RemoveSpacesAppend(a: string, b: string)
    ensures RemoveSpaces(a + b) == RemoveSpaces(a) + RemoveSpaces(b)
    decreases |b|
  {
    if b == [] {
      assert a + b == a;
    } else {
      var b' := b[..|b| - 1];
      assert (a + b)[..|a + b| - 1] == a + b';
      RemoveSpacesAppend(a, b');
    }
  }

  lemma {:induction false} RemoveSpacesAllSpace(s: string)
    requires forall k :: 0 <= k < |s| ==> IsSpace(s[k])
    ensures RemoveSpaces(s) == []
    decreases |s|
  {
    if s != [] {
      RemoveSpacesAllSpace(s[..|s| - 1]);
    }
  }

  lemma RemoveSpacesTrimStart(s: string)
    ensures RemoveSpaces(TrimStart(s)) == RemoveSpaces(s)
  {
    var a := TrimStart(s);
    var head := s[..|s| - |a|];
    assert s == head + a;
    RemoveSpacesAppend(head, a);
    RemoveSpacesAllSpace(head);
  }

  lemma RemoveSpacesTrimEnd(s: string)
    ensures RemoveSpaces(TrimEnd(s)) == RemoveSpaces(s)
    ensures TrimEnd(s) != [] ==> RemoveSpaces(TrimEnd(s)) != []
  {
    var r := TrimEnd(s);
    var tail := s[|r|..];
    assert s == r + tail;
    RemoveSpacesAppend(r, tail);
    RemoveSpacesAllSpace(tail);
  }

  /** Stripping only drops whitespace: the other characters are all kept, and
      a stripped text that is not empty has some. */
  lemma RemoveSpacesStrip(s: string)
    ensures RemoveSpaces(Strip(s)) == RemoveSpaces(s)
    ensures Strip(s) != [] ==> RemoveSpaces(Strip(s)) != []
  {
    RemoveSpacesTrimStart(s);
    RemoveSpacesTrimEnd(TrimStart(s));
  }

  // ---------------------------------------------------------------------------
  // Splitting into words: the `for char in clean_text` state machine

  /** The loop's state: the words emitted and the word being built. */
  datatype TokState = TokState(words: seq<string>, current: string)

  /** One character of the loop. */
  function Step(st: TokState, c: char): TokState {
    if IsSpace(c) then
      if st.current != [] then TokState(st.words + [st.current], []) else st
    else if IsCjk(c) then
      if st.current != [] && !IsCjk(st.current[|st.current| - 1]) then TokState(st.words + [st.current], [c])
      else TokState((if st.current != [] then st.words + [st.current] else st.words) + [[c]], [])
    else TokState(st.words, st.current + [c])
  }

  /** The state after the loop has read all of `s`. */
  function Run(s: string): TokState {
    if s == [] then TokState([], []) else Step(Run(s[..|s| - 1]), s[|s| - 1])
  }

  /** The word list after the final `if current_word` flush. */
  function Finish(st: TokState): seq<string> {
    if st.current != [] then st.words + [st.current] else st.words
  }

  function Tokenize(s: string): seq<string> {
    Finish(Run(s))
  }

  /** No whitespace, and a CJK ideograph only as the first character. */
  predicate GoodChars(w: string) {
    forall k :: 0 <= k < |w| ==> !IsSpace(w[k]) && (k > 0 ==> !IsCjk(w[k]))
  }

  predicate GoodWords(ws: seq<string>) {
    forall k :: 0 <= k < |ws| ==> ws[k] != [] && GoodChars(ws[k])
  }

  lemma FlattenSnoc(ws: seq<string>, w: string)
    ensures Flatten(ws + [w]) == Flatten(ws) + w
  {
    FlattenAppend(ws, [w]);
    assert Flatten([w]) == w + Flatten([]);
  }

  /** One character keeps the words well formed and adds exactly that
      character, unless it is whitespace, to the text emitted and pending. */
  lemma StepPreserves(st: TokState, c: char)
    requires GoodWords(st.words) && GoodChars(st.current)
    ensures var st' := Step(st, c);
      && GoodWords(st'.words) && GoodChars(st'.current)
      && Flatten(st'.words) + st'.current == Flatten(st.words) + st.current + (if IsSpace(c) then [] else [c])
  {
    var st' := Step(st, c);
    if IsSpace(c) {
      if st.current != [] {
        FlattenSnoc(st.words, st.current);
      }
    } else if IsCjk(c) {
      if st.current != [] && !IsCjk(st.current[|st.current| - 1]) {
        FlattenSnoc(st.words, st.current);
      } else {
        var ws := if st.current != [] then st.words + [st.current] else st.words;
        FlattenSnoc(st.words, st.current);
        FlattenSnoc(ws, [c]);
        AppendAssoc(Flatten(st.words), st.current, [c]);
      }
    } else {
      AppendAssoc(Flatten(st.words), st.current, [c]);
    }
  }

  lemma {:induction false} RunInvariant(s: string)
    ensures GoodWords(Run(s).words) && GoodChars(Run(s).current)
    ensures Flatten(Run(s).words) + Run(s).current == RemoveSpaces(s)
    decreases |s|
  {
    if s != [] {
      RunInvariant(s[..|s| - 1]);
      StepPreserves(Run(s[..|s| - 1]), s[|s| - 1]);
    }
  }

  /** The words are nonempty, hold no whitespace, hold at most one CJK
      ideograph and only as their first character, and together spell the
      text with its whitespace removed. */
  lemma TokenizeWords(s: string)
    ensures GoodWords(Tokenize(s))
    ensures Flatten(Tokenize(s)) == RemoveSpaces(s)
  {
    RunInvariant(s);
    var st := Run(s);
    if st.current != [] {
      FlattenSnoc(st.words, st.current);
    } else {
      assert Flatten(st.words) + [] == Flatten(st.words);
    }
  }

  /** A character that neither ends nor starts a word: not whitespace and not a
      CJK ideograph. */
  predicate Plain(c: char) {
    !IsSpace(c) && !IsCjk(c)
  }

  predicate AllPlain(b: string) {
    forall k :: 0 <= k < |b| ==> Plain(b[k])
  }

  /** What may follow a word: the end of the text, whitespace or an ideograph. */
  predicate Boundary(c: string) {
    c == [] || IsSpace(c[0]) || IsCjk(c[0])
  }

  /** Words once emitted are never taken back. */
  lemma {:induction false} RunWordsPrefix(s: string, j: nat)
    requires j <= |s|
    ensures Run(s[..j]).words <= Run(s).words
    decreases |s|
  {
    if j < |s| {
      var s' := s[..|s| - 1];
      assert s'[..j] == s[..j];
      RunWordsPrefix(s', j);
    } else {
      assert s[..j] == s;
    }
  }

  /** Plain characters only extend the word being built. */
  lemma {:induction false} RunAppendPlain(a: string, b: string)
    requires AllPlain(b)
    ensures Run(a + b) == TokState(Run(a).words, Run(a).current + b)
    decreases |b|
  {
    if b == [] {
      assert a + b == a;
    } else {
      var b' := b[..|b| - 1];
      assert (a + b)[..|a + b| - 1] == a + b';
      assert (a + b)[|a + b| - 1] == b[|b| - 1];
      RunAppendPlain(a, b');
      assert b' + [b[|b| - 1]] == b;
    }
  }

  /** A word being built is emitted whole when the text ends or reaches
      whitespace or an ideograph. */
  lemma FlushedAtBoundary(u: string, c: string)
    requires Run(u).current != [] && Boundary(c)
    ensures Run(u).current in Tokenize(u + c)
  {
    var st := Run(u);
    if c == [] {
      assert u + c == u;
    } else {
      var v := u + c;
      assert v[..|u| + 1][..|u|] == u;
      assert v[..|u| + 1] == u + [c[0]];
      assert (st.words + [st.current])[|st.words|] == st.current;
      assert Run(v[..|u| + 1]).words[|st.words|] == st.current;
      RunWordsPrefix(v, |u| + 1);
      assert Run(v).words <= Tokenize(v);
    }
  }

  /** After whitespace, after an ideograph that stands on its own, and at the
      start of the text, no word is being built. */
  predicate WordBreakAfter(a: string) {
    || a == []
    || IsSpace(a[|a| - 1])
    || (IsCjk(a[|a| - 1]) && (|a| == 1 || !Plain(a[|a| - 2])))
  }

  lemma NothingPendingAfterBreak(a: string)
    requires WordBreakAfter(a)
    ensures Run(a).current == []
  {
    if a != [] && !IsSpace(a[|a| - 1]) {
      var a' := a[..|a| - 1];
      assert Run(a) == Step(Run(a'), a[|a| - 1]);
      if |a| > 1 {
        assert a'[..|a'| - 1] == a[..|a| - 2];
        assert Run(a') == Step(Run(a[..|a| - 2]), a[|a| - 2]);
      }
      assert Run(a').current == [] || IsCjk(Run(a').current[|Run(a').current| - 1]);
    }
  }

  /** A run of plain characters that follows whitespace, an ideograph standing
      on its own, or the start of the text, and is followed by a boundary, is
      kept as one word (`你好world` gives `你`, `好`, `world`). */
  lemma TokenizeKeepsRun(a: string, b: string, c: string)
    requires WordBreakAfter(a)
    requires b != [] && AllPlain(b) && Boundary(c)
    ensures b in Tokenize(a + b + c)
  {
    NothingPendingAfterBreak(a);
    RunAppendPlain(a, b);
    assert Run(a + b).current == b;
    FlushedAtBoundary(a + b, c);
  }

  /** An ideograph that follows a plain character starts a new word, and the
      plain characters after it join that word. */
  lemma TokenizeCjkStartsWord(a: string, x: char, b: string, c: string)
    requires a != [] && Plain(a[|a| - 1])
    requires IsCjk(x) && AllPlain(b) && Boundary(c)
    ensures [x] + b in Tokenize(a + [x] + b + c)
  {
    var a' := a[..|a| - 1];
    assert Run(a).current == Run(a').current + [a[|a| - 1]];
    assert (a + [x])[..|a|] == a;
    assert Run(a + [x]).current == [x];
    RunAppendPlain(a + [x], b);
    FlushedAtBoundary(a + [x] + b, c);
  }

  /** An ideograph at the start of the text, after whitespace or after another
      ideograph is a word on its own. */
  lemma TokenizeCjkAlone(s: string, k: nat)
    requires k < |s| && IsCjk(s[k])
    requires k == 0 || IsSpace(s[k - 1]) || IsCjk(s[k - 1])
    ensures [s[k]] in Tokenize(s)
  {
    var st := Run(s[..k]);
    if k > 0 {
      assert s[..k][..k - 1] == s[..k - 1];
      assert st == Step(Run(s[..k - 1]), s[k - 1]);
      assert st.current == [] || st.current == [s[k - 1]];
    }
    assert s[..k + 1][..k] == s[..k];
    var st' := Run(s[..k + 1]);
    assert st' == Step(st, s[k]);
    assert st'.words[|st'.words| - 1] == [s[k]];
    RunWordsPrefix(s, k + 1);
    assert Run(s).words <= Tokenize(s);
  }

  /** The loop of the splitter, with `words` and `current_word`. */
  method SplitWords(cleanText: string) returns (words: seq<string>)
    ensures words == Tokenize(cleanText)
  {
    words := [];
    var currentWord := "";
    for i := 0 to |cleanText|
      invariant TokState(words, currentWord) == Run(cleanText[..i])
    {
      var c := cleanText[i];
      assert cleanText[..i + 1][..i] == cleanText[..i];
      if IsSpace(c) {
        if currentWord != [] {
          words := words + [currentWord];
          currentWord := "";
        }
      } else if '\U{4E00}' <= c <= '\U{9FFF}' {
        if currentWord != [] && !('\U{4E00}' <= currentWord[|currentWord| - 1] <= '\U{9FFF}') {
          words := words + [currentWord];
          currentWord := [c];
        } else {
          if currentWord != [] {
            words := words + [currentWord];
          }
          words := words + [[c]];
          currentWord := "";
        }
      } else {
        currentWord := currentWord + [c];
      }
    }
    assert cleanText[..|cleanText|] == cleanText;
    if currentWord != [] {
      words := words + [currentWord];
    }
  }

  // ---------------------------------------------------------------------------
  // Timestamps

  /** A recogniser timestamp pair, in milliseconds. */
  datatype Span = Span(startMs: int, endMs: int)

  /** `int(i * len(timestamps) / len(words))` with its clamp to the last index. */
  function SpanIndex(i: nat, wordCount: nat, spanCount: nat): nat
    requires wordCount > 0 && spanCount > 0
  {
    var index := (i * spanCount) / wordCount;
    if index >= spanCount then spanCount - 1 else index
  }

  lemma DivMonotone(a: nat, b: nat, d: nat)
    requires a <= b && d > 0
    ensures a / d <= b / d
  {
    assert a / d * d <= a && (b / d + 1) * d > b;
    if a / d > b / d {
      MulMonotone(b / d + 1, a / d, d);
      assert false;
    }
  }

  lemma MulMonotone(x: nat, y: nat, d: nat)
    requires x <= y
    ensures x * d <= y * d
  {
    assert y * d == x * d + (y - x) * d;
  }

  /** A quotient below `q` when the dividend is below `q * d`. */
  lemma DivBelow(a: nat, d: nat, q: nat)
    requires d > 0 && a < q * d
    ensures a / d < q
  {
    assert a / d * d <= a;
    if a / d >= q {
      MulMonotone(q, a / d, d);
      assert false;
    }
  }

  /** With fewer timestamps than words, the clamp never changes the index:
      word `i` takes timestamp `floor(i * T / W)`, which is below `T`; the
      first word takes the first timestamp, and later words never take
      earlier timestamps. */
  lemma SpanIndexProperties(i: nat, j: nat, wordCount: nat, spanCount: nat)
    requires 0 < spanCount < wordCount && i <= j < wordCount
    ensures SpanIndex(i, wordCount, spanCount) == (i * spanCount) / wordCount < spanCount
    ensures SpanIndex(0, wordCount, spanCount) == 0
    ensures SpanIndex(i, wordCount, spanCount) <= SpanIndex(j, wordCount, spanCount)
  {
    MulMonotone(i, j, spanCount);
    MulMonotone(i + 1, wordCount, spanCount);
    MulMonotone(j + 1, wordCount, spanCount);
    assert i * spanCount < spanCount * wordCount && j * spanCount < spanCount * wordCount;
    DivBelow(i * spanCount, wordCount, spanCount);
    DivBelow(j * spanCount, wordCount, spanCount);
    DivMonotone(i * spanCount, j * spanCount, wordCount);
  }

  /** The record for a word and its timestamp pair: seconds, confidence 0.9. */
  function ToWord(w: string, sp: Span): Word {
    Word(w, sp.startMs as real / 1000.0, sp.endMs as real / 1000.0, 0.9)
  }

  /** The timestamp pair word `i` of `wordCount` takes. */
  function SpanFor(i: nat, wordCount: nat, spans: seq<Span>): Span
    requires i < wordCount && spans != []
  {
    if |spans| >= wordCount then spans[i] else spans[SpanIndex(i, wordCount, |spans|)]
  }

  /** The records for `words` given timestamp pairs `spans`: word `i`
      with pair `SpanFor(i, |words|, spans)`. */
  function Assign(words: seq<string>, spans: seq<Span>): (r: seq<Word>)
    requires spans != []
    ensures |r| == |words|
  {
    seq(|words|, i requires 0 <= i < |words| => ToWord(words[i], SpanFor(i, |words|, spans)))
  }

  /** What `_convert_sensevoice_to_word_level` returns. */
  function WordLevel(text: string, timestamps: seq<Span>): seq<Word> {
    var cleanText := Strip(StripTags(text));
    if cleanText == [] || timestamps == [] then [] else Assign(Tokenize(cleanText), timestamps)
  }

  /** The pairs' start times never decrease. */
  predicate StartsInOrder(spans: seq<Span>) {
    forall a, b :: 0 <= a <= b < |spans| ==> spans[a].startMs <= spans[b].startMs
  }

  /** Each record carries its word and confidence 0.9, and when the
      timestamps' start times never decrease, neither do the records'. */
  lemma AssignProperties(words: seq<string>, spans: seq<Span>)
    requires spans != []
    ensures var r := Assign(words, spans);
      && (forall k :: 0 <= k < |r| ==> r[k].word == words[k] && r[k].conf == 0.9)
      && (StartsInOrder(spans) ==> forall a, b :: 0 <= a <= b < |r| ==> r[a].start <= r[b].start)
  {
    var r := Assign(words, spans);
    if StartsInOrder(spans) {
      forall a, b | 0 <= a <= b < |r| ensures r[a].start <= r[b].start {
        var sa, sb := SpanFor(a, |words|, spans), SpanFor(b, |words|, spans);
        if |spans| < |words| {
          SpanIndexProperties(a, b, |words|, |spans|);
        }
        assert sa.startMs <= sb.startMs;
        assert r[a].start == sa.startMs as real / 1000.0 && r[b].start == sb.startMs as real / 1000.0;
      }
    }
  }

  /** When the cleaned text and the timestamps are both nonempty there is one
      record per word of the cleaned text, and the words spell the text with
      its markers and all whitespace removed. */
  lemma WordLevelWords(text: string, timestamps: seq<Span>)
    requires Strip(StripTags(text)) != [] && timestamps != []
    ensures var words := Tokenize(Strip(StripTags(text)));
      && WordLevel(text, timestamps) == Assign(words, timestamps)
      && |words| > 0
      && Flatten(words) == RemoveSpaces(StripTags(text))
  {
    var s := StripTags(text);
    TokenizeWords(Strip(s));
    RemoveSpacesStrip(s);
  }

  /** The assignment loop when there are at least as many timestamp pairs as
      words: word `i` takes pair `i`. */
  method AssignInOrder(words: seq<string>, timestamps: seq<Span>) returns (results: seq<Word>)
    requires |timestamps| >= |words| && timestamps != []
    ensures results == Assign(words, timestamps)
  {
    results := [];
    for i := 0 to |words|
      invariant |results| == i
      invariant forall k :: 0 <= k < i ==> results[k] == ToWord(words[k], timestamps[k])
    {
      if i < |timestamps| {
        var span := timestamps[i];
        results := results + [Word(words[i], span.startMs as real / 1000.0, span.endMs as real / 1000.0, 0.9)];
      }
    }
  }

  /** The assignment loop when there are fewer timestamp pairs than words:
      word `i` takes pair `int(i * len(timestamps) / len(words))`, clamped. */
  method AssignSpread(words: seq<string>, timestamps: seq<Span>) returns (results: seq<Word>)
    requires 0 < |timestamps| < |words|
    ensures results == Assign(words, timestamps)
  {
    results := [];
    for i := 0 to |words|
      invariant |results| == i
      invariant forall k :: 0 <= k < i ==> results[k] == ToWord(words[k], timestamps[SpanIndex(k, |words|, |timestamps|)])
    {
      var timestampIndex := (i * |timestamps|) / |words|;
      if timestampIndex >= |timestamps| {
        timestampIndex := |timestamps| - 1;
      }
      assert timestampIndex == SpanIndex(i, |words|, |timestamps|);
      var span := timestamps[timestampIndex];
      results := results + [Word(words[i], span.startMs as real / 1000.0, span.endMs as real / 1000.0, 0.9)];
    }
  }

  /** `_convert_sensevoice_to_word_level`: marker removal, `strip`, the early
      return, the splitter, and the assignment. */
  method ConvertToWordLevel(text: string, timestamps: seq<Span>) returns (results: seq<Word>)
    ensures results == WordLevel(text, timestamps)
  {
    results := [];
    var cleanText := Strip(StripTags(text));
    if cleanText == [] || timestamps == [] {
      return;
    }
    var words := SplitWords(cleanText);
    if |words| > 0 && |timestamps| > 0 {
      if |timestamps| >= |words| {
        results := AssignInOrder(words, timestamps);
      } else {
        results := AssignSpread(words, timestamps);
      }
    } else {
      assert words == [];
    }
  }
}
