/**
 * Python's `sorted(..., key=lambda s: s.lower())` on named values, as the MAT
 * loader uses it for struct field names and top-level keys: a stable sort by the
 * lower-cased name, where names compare like Python strings (code point by code point,
 * a proper prefix first).
 */
module CaseInsensitiveSort {

  /** A named value: a struct field or a dict item. */
  datatype Entry<T> = Entry(name: string, value: T)

  /** str.lower on one character; only ASCII letters are folded in this model. */
  function LowerChar(c: char): char
  {
    if 'A' <= c <= 'Z' then (c as int + 32) as char else c
  }

  /** str.lower, character by character. */
  function Lower(s: string): string
  {
    seq(|s|, i requires 0 <= i < |s| => LowerChar(s[i]))
  }

  /** Python's `a <= b` on strings. */
  predicate LexLeq(a: string, b: string)
    decreases |a|
  {
    if a == [] then true
    else if b == [] then false
    else if a[0] != b[0] then a[0] < b[0]
    else LexLeq(a[1..], b[1..])
  }

  /** The order the sort key induces: compare the lower-cased names. */
  predicate KeyLeq(a: string, b: string)
  {
    LexLeq(Lower(a), Lower(b))
  }

  lemma {:induction false} LexLeqReflexive(a: string)
    ensures LexLeq(a, a)
    decreases |a|
  {
    if a != [] { LexLeqReflexive(a[1..]); }
  }

  lemma {:induction false} LexLeqTotal(a: string, b: string)
    ensures LexLeq(a, b) || LexLeq(b, a)
    decreases |a|
  {
    if a != [] && b != [] && a[0] == b[0] { LexLeqTotal(a[1..], b[1..]); }
  }

  lemma {:induction false} LexLeqTransitive(a: string, b: string, c: string)
    requires LexLeq(a, b) && LexLeq(b, c)
    ensures LexLeq(a, c)
    decreases |a|
  {
    if a != [] && a[0] == b[0] && b[0] == c[0] { LexLeqTransitive(a[1..], b[1..], c[1..]); }
  }

  /** Insert `x` before the first element whose key is not below its own, which keeps equal keys in input order. */
  function Insert<T>(x: Entry<T>, s: seq<Entry<T>>): seq<Entry<T>>
  {
    if s == [] then [x]
    else if KeyLeq(x.name, s[0].name) then [x] + s
    else [s[0]] + Insert(x, s[1..])
  }

  /** The stable case-insensitive sort, by insertion. */
  function SortByKey<T>(s: seq<Entry<T>>): seq<Entry<T>>
  {
    if s == [] then [] else Insert(s[0], SortByKey(s[1..]))
  }

  /** Every earlier name is, case-insensitively, at most every later one. */
  ghost predicate Sorted<T>(s: seq<Entry<T>>)
  {
    forall i, j :: 0 <= i < j < |s| ==> KeyLeq(s[i].name, s[j].name)
  }

  /** The elements of `s` whose lower-cased name is `w`, in their order in `s`. */
  function WithLowerKey<T>(s: seq<Entry<T>>, w: string): seq<Entry<T>>
  {
    if s == [] then []
    else (if Lower(s[0].name) == w then [s[0]] else []) + WithLowerKey(s[1..], w)
  }

  lemma {:induction false} InsertPermutes<T>(x: Entry<T>, s: seq<Entry<T>>)
    ensures multiset(Insert(x, s)) == multiset([x] + s)
  {
    if s != [] && !KeyLeq(x.name, s[0].name) {
      InsertPermutes(x, s[1..]);
      assert s == [s[0]] + s[1..];
    }
  }

  /** The sort returns a permutation of its input. */
  lemma {:induction false} SortPermutes<T>(s: seq<Entry<T>>)
    ensures multiset(SortByKey(s)) == multiset(s)
  {
    if s != [] {
      SortPermutes(s[1..]);
      InsertPermutes(s[0], SortByKey(s[1..]));
      assert s == [s[0]] + s[1..];
    }
  }

  lemma {:induction false} InsertSorted<T>(x: Entry<T>, s: seq<Entry<T>>)
    requires Sorted(s)
    ensures Sorted(Insert(x, s))
  {
    if s == [] {
    } else if KeyLeq(x.name, s[0].name) {
      forall j | 0 <= j < |s| ensures KeyLeq(x.name, s[j].name) {
        if j > 0 { LexLeqTransitive(Lower(x.name), Lower(s[0].name), Lower(s[j].name)); }
      }
      var r := [x] + s;
      forall i, j | 0 <= i < j < |r| ensures KeyLeq(r[i].name, r[j].name) {
        assert r[j] == s[j - 1];
        if i > 0 { assert r[i] == s[i - 1]; }
      }
    } else {
      var tail := Insert(x, s[1..]);
      InsertSorted(x, s[1..]);
      InsertPermutes(x, s[1..]);
      LexLeqTotal(Lower(x.name), Lower(s[0].name));
      forall j | 0 <= j < |tail| ensures KeyLeq(s[0].name, tail[j].name) {
        assert tail[j] in multiset([x] + s[1..]);
        if tail[j] != x {
          assert tail[j] in s[1..];
        }
      }
    }
  }

  /** The sort's result is in case-insensitive order. */
  lemma {:induction false} SortSorted<T>(s: seq<Entry<T>>)
    ensures Sorted(SortByKey(s))
  {
    if s != [] {
      SortSorted(s[1..]);
      InsertSorted(s[0], SortByKey(s[1..]));
    }
  }

  lemma {:induction false} InsertStable<T>(x: Entry<T>, s: seq<Entry<T>>, w: string)
    ensures WithLowerKey(Insert(x, s), w) == WithLowerKey([x] + s, w)
  {
    if s == [] {
    } else if KeyLeq(x.name, s[0].name) {
    } else {
      LexLeqReflexive(Lower(x.name));
      assert Lower(s[0].name) != Lower(x.name);
      InsertStable(x, s[1..], w);
      assert ([s[0]] + Insert(x, s[1..]))[1..] == Insert(x, s[1..]);
      assert ([x] + s)[1..] == s;
      assert ([x] + s[1..])[1..] == s[1..];
    }
  }

  /**
   * Stability: names that differ only by case (the same lower-cased name `w`) come out in
   * the order they went in.
   */
  lemma {:induction false} SortStable<T>(s: seq<Entry<T>>, w: string)
    ensures WithLowerKey(SortByKey(s), w) == WithLowerKey(s, w)
  {
    if s != [] {
      SortStable(s[1..], w);
      InsertStable(s[0], SortByKey(s[1..]), w);
      assert ([s[0]] + SortByKey(s[1..]))[1..] == SortByKey(s[1..]);
    }
  }

  /** The names of a sequence of entries, in order. */
  function KeysOf<T>(s: seq<Entry<T>>): (r: seq<string>)
    ensures |r| == |s| && forall i :: 0 <= i < |s| ==> r[i] == s[i].name
  {
    seq(|s|, i requires 0 <= i < |s| => s[i].name)
  }

  lemma KeysOfAppend<T>(a: seq<Entry<T>>, b: seq<Entry<T>>)
    ensures KeysOf(a + b) == KeysOf(a) + KeysOf(b)
  {
  }

  lemma {:induction false} InsertPermutesKeys<T>(x: Entry<T>, s: seq<Entry<T>>)
    ensures multiset(KeysOf(Insert(x, s))) == multiset(KeysOf([x] + s))
  {
    if s != [] && !KeyLeq(x.name, s[0].name) {
      InsertPermutesKeys(x, s[1..]);
      KeysOfAppend([s[0]], Insert(x, s[1..]));
      KeysOfAppend([x], s[1..]);
      KeysOfAppend([x], s);
      KeysOfAppend([s[0]], s[1..]);
      assert [s[0]] + s[1..] == s;
    }
  }

  /** The sort keeps exactly the names it was given, each as often as it was given. */
  lemma {:induction false} SortPermutesKeys<T>(s: seq<Entry<T>>)
    ensures multiset(KeysOf(SortByKey(s))) == multiset(KeysOf(s))
  {
    if s != [] {
      SortPermutesKeys(s[1..]);
      var sorted := SortByKey(s[1..]);
      InsertPermutesKeys(s[0], sorted);
      KeysOfAppend([s[0]], sorted);
      KeysOfAppend([s[0]], s[1..]);
      assert [s[0]] + s[1..] == s;
    }
  }
}
