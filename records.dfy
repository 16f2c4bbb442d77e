/** The recogniser record shared by both core files, and the optional value
    used for "nothing found yet". */
module Records {
  import opened Strings

  datatype Option<T> = None | Some(value: T)

  /** One recognised word: its text, start and end time in seconds and the
      recogniser's confidence. */
  datatype Word = Word(word: string, start: real, end: real, conf: real)

  /** The records' texts joined without separator. */
  function ConcatText(ws: seq<Word>): string {
    if ws == [] then [] else ws[0].word + ConcatText(ws[1..])
  }

  lemma {:induction false} ConcatTextAppend(a: seq<Word>, b: seq<Word>)
    ensures ConcatText(a + b) == ConcatText(a) + ConcatText(b)
    decreases |a|
  {
    if a == [] {
      assert a + b == b;
    } else {
      assert (a + b)[1..] == a[1..] + b;
      ConcatTextAppend(a[1..], b);
    }
  }

  function Abs(x: real): real {
    if x < 0.0 then -x else x
  }
}
