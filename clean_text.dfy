/** `TextMatcher.clean_text`: drops punctuation and whitespace before any
    comparison with the target text. */
module Cleaning {
  import opened Strings

  /** Python's `string.punctuation`: the 32 printable ASCII characters that
      are neither letters, digits nor the space, in four ranges. */
  predicate IsAsciiPunctuation(c: char) {
    || '!' <= c <= '/'
    || ':' <= c <= '@'
    || '[' <= c <= '`'
    || '{' <= c <= '~'
  }

  /** The fixed list of Chinese punctuation, "，。！？；：\"（）【】《》、"; its
      quote mark is the ASCII one, already ASCII punctuation. */
  predicate IsChinesePunctuation(c: char) {
    || c == '，' || c == '。' || c == '！' || c == '？' || c == '；' || c == '：'
    || c == '"' || c == '（' || c == '）' || c == '【' || c == '】' || c == '《'
    || c == '》' || c == '、'
  }

  predicate IsPunctuation(c: char) {
    IsAsciiPunctuation(c) || IsChinesePunctuation(c)
  }

  /** A character that `clean_text` keeps. */
  predicate Kept(c: char) {
    !IsPunctuation(c) && !IsSpace(c)
  }

  /** The characters of `s` that are neither punctuation nor whitespace, in order. */
  function CleanText(s: string): (r: string)
    ensures |r| <= |s|
  {
    if s == [] then []
    else (if Kept(s[0]) then [s[0]] else []) + CleanText(s[1..])
  }

  /** No punctuation and no whitespace survives cleaning. */
  lemma {:induction false} CleanTextKept(s: string)
    ensures forall k :: 0 <= k < |CleanText(s)| ==> Kept(CleanText(s)[k])
    decreases |s|
  {
    if s != [] {
      CleanTextKept(s[1..]);
      var r := CleanText(s);
      if Kept(s[0]) {
        assert r == [s[0]] + CleanText(s[1..]);
      }
    }
  }

  /** The cleaned text keeps the surviving characters in their original order. */
  lemma {:induction false} CleanTextSubseq(s: string)
    ensures IsSubseq(CleanText(s), s)
    decreases |s|
  {
    if s != [] {
      CleanTextSubseq(s[1..]);
      var r := CleanText(s);
      if Kept(s[0]) {
        assert r[0] == s[0] && r[1..] == CleanText(s[1..]);
      } else {
        assert r == CleanText(s[1..]);
      }
    }
  }

  /** A text made only of kept characters is left as it is. */
  lemma {:induction false} CleanTextOfClean(s: string)
    requires forall k :: 0 <= k < |s| ==> Kept(s[k])
    ensures CleanText(s) == s
    decreases |s|
  {
    if s != [] {
      CleanTextOfClean(s[1..]);
    }
  }

  /** Cleaning twice is cleaning once. */
  lemma CleanTextIdempotent(s: string)
    ensures CleanText(CleanText(s)) == CleanText(s)
  {
    CleanTextKept(s);
    CleanTextOfClean(CleanText(s));
  }

  /** Cleaning works character by character, so it distributes over concatenation. */
  lemma {:induction false} CleanTextAppend(a: string, b: string)
    ensures CleanText(a + b) == CleanText(a) + CleanText(b)
    decreases |a|
  {
    if a == [] {
      assert a + b == b;
    } else {
      var h := if Kept(a[0]) then [a[0]] else [];
      assert (a + b)[0] == a[0] && (a + b)[1..] == a[1..] + b;
      assert CleanText(a + b) == h + CleanText(a[1..] + b);
      CleanTextAppend(a[1..], b);
      AppendAssoc(h, CleanText(a[1..]), CleanText(b));
    }
  }

  /** A character is dropped exactly when it is punctuation or whitespace. */
  lemma {:induction false} CleanTextKeepsExactly(s: string, c: char)
    ensures c in CleanText(s) <==> c in s && Kept(c)
    decreases |s|
  {
    if s != [] {
      CleanTextKeepsExactly(s[1..], c);
    }
  }
}
