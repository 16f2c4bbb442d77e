/** Python's `sorted` and `list.sort` with a key, used twice by the
    character combiner. Both are stable, so their result is the stable
    insertion sort defined here. */
module Sorting {
  import opened Records

  /** A sort key compared lexicographically: `major`, then `minor`. */
  datatype Key = Key(major: int, minor: real)

  predicate KeyLe(a: Key, b: Key) {
    a.major < b.major || (a.major == b.major && a.minor <= b.minor)
  }

  /** The two keys the combiner sorts by: `start`, and `(-len(word), start)`. */
  datatype Order = ByStart | ByLengthThenStart

  function KeyOf(o: Order, w: Word): Key {
    match o
    case ByStart => Key(0, w.start)
    case ByLengthThenStart => Key(-|w.word|, w.start)
  }

  predicate SortedBy(s: seq<Word>, o: Order) {
    forall i, j :: 0 <= i < j < |s| ==> KeyLe(KeyOf(o, s[i]), KeyOf(o, s[j]))
  }

  /** Places `x` in front of the first element whose key is strictly greater,
      that is after every element with an equal key. */
  function Insert(x: Word, s: seq<Word>, o: Order): seq<Word> {
    if s == [] then [x]
    else if !KeyLe(KeyOf(o, s[0]), KeyOf(o, x)) then [x] + s
    else [s[0]] + Insert(x, s[1..], o)
  }

  lemma {:induction false} InsertPermutes(x: Word, s: seq<Word>, o: Order)
    ensures multiset(Insert(x, s, o)) == multiset(s) + multiset{x}
    decreases |s|
  {
    if s != [] && KeyLe(KeyOf(o, s[0]), KeyOf(o, x)) {
      InsertPermutes(x, s[1..], o);
      assert s == [s[0]] + s[1..];
    }
  }

  lemma {:induction false} InsertSorted(x: Word, s: seq<Word>, o: Order)
    requires SortedBy(s, o)
    ensures SortedBy(Insert(x, s, o), o)
    decreases |s|
  {
    if s != [] && KeyLe(KeyOf(o, s[0]), KeyOf(o, x)) {
      var r' := Insert(x, s[1..], o);
      InsertSorted(x, s[1..], o);
      InsertPermutes(x, s[1..], o);
      forall j | 0 <= j < |r'| ensures KeyLe(KeyOf(o, s[0]), KeyOf(o, r'[j])) {
        assert r'[j] in multiset(r');
        if r'[j] != x {
          assert r'[j] in multiset(s[1..]);
          var m :| 0 <= m < |s[1..]| && s[1..][m] == r'[j];
          assert s[m + 1] == r'[j];
        }
      }
      assert Insert(x, s, o) == [s[0]] + r';
    }
  }

  /** The stable sort of `s` by the key `o`: sorted, and a permutation of `s`. */
  function Sort(s: seq<Word>, o: Order): (r: seq<Word>)
    ensures SortedBy(r, o)
    ensures multiset(r) == multiset(s)
  {
    if s == [] then []
    else
      var init, last := s[..|s| - 1], s[|s| - 1];
      assert s == init + [last];
      var sorted := Sort(init, o);
      InsertSorted(last, sorted, o);
      InsertPermutes(last, sorted, o);
      Insert(last, sorted, o)
  }

  /** The elements of `s` whose key is `k`, in order. */
  function WithKey(s: seq<Word>, o: Order, k: Key): seq<Word> {
    if s == [] then []
    else (if KeyOf(o, s[0]) == k then [s[0]] else []) + WithKey(s[1..], o, k)
  }

  lemma {:induction false} WithKeyAppend(a: seq<Word>, b: seq<Word>, o: Order, k: Key)
    ensures WithKey(a + b, o, k) == WithKey(a, o, k) + WithKey(b, o, k)
    decreases |a|
  {
    if a == [] {
      assert a + b == b;
    } else {
      assert (a + b)[1..] == a[1..] + b;
      WithKeyAppend(a[1..], b, o, k);
    }
  }

  lemma {:induction false} WithKeyAbsent(s: seq<Word>, o: Order, k: Key)
    requires forall j :: 0 <= j < |s| ==> KeyOf(o, s[j]) != k
    ensures WithKey(s, o, k) == []
    decreases |s|
  {
    if s != [] {
      WithKeyAbsent(s[1..], o, k);
    }
  }

  lemma {:induction false} InsertStable(x: Word, s: seq<Word>, o: Order, k: Key)
    requires SortedBy(s, o)
    ensures WithKey(Insert(x, s, o), o, k)
         == WithKey(s, o, k) + (if KeyOf(o, x) == k then [x] else [])
    decreases |s|
  {
    if s == [] {
    } else if !KeyLe(KeyOf(o, s[0]), KeyOf(o, x)) {
      assert Insert(x, s, o) == [x] + s;
      assert ([x] + s)[1..] == s;
      if KeyOf(o, x) == k {
        forall j | 0 <= j < |s| ensures KeyOf(o, s[j]) != k {
          assert j == 0 || KeyLe(KeyOf(o, s[0]), KeyOf(o, s[j]));
        }
        WithKeyAbsent(s, o, k);
      }
    } else {
      var r' := Insert(x, s[1..], o);
      assert Insert(x, s, o) == [s[0]] + r';
      assert ([s[0]] + r')[1..] == r';
      var h := if KeyOf(o, s[0]) == k then [s[0]] else [];
      assert WithKey([s[0]] + r', o, k) == h + WithKey(r', o, k);
      assert WithKey(s, o, k) == h + WithKey(s[1..], o, k);
      assert SortedBy(s[1..], o);
      InsertStable(x, s[1..], o, k);
    }
  }

  /** Stability: the elements sharing any one key keep their input order. */
  lemma {:induction false} SortStable(s: seq<Word>, o: Order, k: Key)
    ensures WithKey(Sort(s, o), o, k) == WithKey(s, o, k)
    decreases |s|
  {
    if s != [] {
      var init, last := s[..|s| - 1], s[|s| - 1];
      assert s == init + [last];
      SortStable(init, o, k);
      InsertStable(last, Sort(init, o), o, k);
      WithKeyAppend(init, [last], o, k);
    }
  }
}
