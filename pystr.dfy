/** The Python string built-ins the converter relies on: `str.rstrip()`,
    ordering of `str` values, and `sorted(..., key=...)`. */
module PyStr {
  import opened Seqs

  /** Python's `str.isspace()` for one character. */
  predicate IsSpace(c: char) {
    ('\t' <= c <= '\r') || ('\U{1C}' <= c <= '\U{1F}') || c == ' ' || c == '\U{85}' || c == '\U{A0}'
    || c == '\U{1680}' || ('\U{2000}' <= c <= '\U{200A}') || c == '\U{2028}' || c == '\U{2029}'
    || c == '\U{202F}' || c == '\U{205F}' || c == '\U{3000}'
  }

  /** Python's `s.rstrip()`: the longest prefix of `s` that does not end in
      whitespace, all of what it drops being whitespace. */
  function RStrip(s: string): (r: string)
    ensures r <= s
    ensures forall i :: |r| <= i < |s| ==> IsSpace(s[i])
    ensures r == [] || !IsSpace(r[|r| - 1])
    decreases |s|
  {
    if s != [] && IsSpace(s[|s| - 1]) then RStrip(s[..|s| - 1]) else s
  }

  /** A prefix that ends in a non-space character survives `rstrip`. */
  lemma RStripKeepsPrefix(p: string, s: string)
    requires p <= s && p != [] && !IsSpace(p[|p| - 1])
    ensures p <= RStrip(s)
  {
    var r := RStrip(s);
    assert |p| <= |r|;
    assert forall i :: 0 <= i < |p| ==> p[i] == s[i] == r[i];
  }

  /** Python's `a <= b` on `str`: lexicographic order of code points, a
      proper prefix coming first. */
  predicate LexLe(a: string, b: string) {
    a == [] || (b != [] && (a[0] < b[0] || (a[0] == b[0] && LexLe(a[1..], b[1..]))))
  }

  lemma {:induction false} LexLeReflexive(a: string)
    ensures LexLe(a, a)
  {
    if a != [] {
      LexLeReflexive(a[1..]);
    }
  }

  lemma {:induction false} LexLeTotal(a: string, b: string)
    ensures LexLe(a, b) || LexLe(b, a)
  {
    if a != [] && b != [] && a[0] == b[0] {
      LexLeTotal(a[1..], b[1..]);
    }
  }

  lemma {:induction false} LexLeAntisymmetric(a: string, b: string)
    requires LexLe(a, b) && LexLe(b, a)
    ensures a == b
  {
    if a != [] && b != [] {
      LexLeAntisymmetric(a[1..], b[1..]);
      assert a == [a[0]] + a[1..];
      assert b == [b[0]] + b[1..];
    }
  }

  lemma {:induction false} LexLeTransitive(a: string, b: string, c: string)
    requires LexLe(a, b) && LexLe(b, c)
    ensures LexLe(a, c)
  {
    if a != [] && b != [] && c != [] && a[0] == b[0] == c[0] {
      LexLeTransitive(a[1..], b[1..], c[1..]);
    }
  }

  /** `xs` is ordered by `key` under Python's string order. */
  ghost predicate SortedByKey(xs: seq<string>, key: string -> string) {
    forall i, j :: 0 <= i < j < |xs| ==> LexLe(key(xs[i]), key(xs[j]))
  }

  /** Inserts `x` before the first element whose key is not smaller than its own. */
  function Insert(x: string, s: seq<string>, key: string -> string): (r: seq<string>)
    ensures multiset(r) == multiset(s) + multiset{x}
  {
    if s == [] then [x]
    else if LexLe(key(x), key(s[0])) then [x] + s
    else
      assert s == [s[0]] + s[1..];
      [s[0]] + Insert(x, s[1..], key)
  }

  /** Python's `sorted(xs, key=key)`: a stable sort, here by insertion. */
  function SortByKey(xs: seq<string>, key: string -> string): (r: seq<string>)
    ensures multiset(r) == multiset(xs)
    ensures |r| == |xs|
  {
    if xs == [] then []
    else
      assert xs == [xs[0]] + xs[1..];
      Insert(xs[0], SortByKey(xs[1..], key), key)
  }

  /** `sorted` keeps exactly the elements it is given. */
  lemma SortMembers(xs: seq<string>, key: string -> string)
    ensures forall x :: x in SortByKey(xs, key) <==> x in xs
  {
    var r := SortByKey(xs, key);
    forall x
      ensures x in r <==> x in xs
    {
      assert x in r <==> x in multiset(r);
      assert x in xs <==> x in multiset(xs);
    }
  }

  /** No element occurs twice in `xs`. */
  predicate NoDup(xs: seq<string>) {
    forall i, j :: 0 <= i < j < |xs| ==> xs[i] != xs[j]
  }

  lemma {:induction false} InsertNoDup(x: string, s: seq<string>, key: string -> string)
    requires NoDup(s) && x !in s
    ensures NoDup(Insert(x, s, key))
  {
    if s != [] && !LexLe(key(x), key(s[0])) {
      InsertNoDup(x, s[1..], key);
      var rest := Insert(x, s[1..], key);
      assert s[0] !in multiset(rest) by {
        assert s[0] !in multiset(s[1..]);
      }
      assert ([s[0]] + rest)[1..] == rest;
    }
  }

  /** Sorting a list without repeats gives a list without repeats. */
  lemma {:induction false} SortNoDup(xs: seq<string>, key: string -> string)
    requires NoDup(xs)
    ensures NoDup(SortByKey(xs, key))
  {
    if xs != [] {
      SortNoDup(xs[1..], key);
      assert xs[0] !in multiset(SortByKey(xs[1..], key)) by {
        assert xs[0] !in xs[1..];
      }
      InsertNoDup(xs[0], SortByKey(xs[1..], key), key);
    }
  }

  /** A key no greater than every key of `s` heads a sorted list. */
  lemma SortedCons(y: string, s: seq<string>, key: string -> string)
    requires SortedByKey(s, key)
    requires forall j :: 0 <= j < |s| ==> LexLe(key(y), key(s[j]))
    ensures SortedByKey([y] + s, key)
  {
    forall i, j | 0 <= i < j < |s| + 1
      ensures LexLe(key(([y] + s)[i]), key(([y] + s)[j]))
    {
      assert ([y] + s)[j] == s[j - 1];
      if i > 0 {
        assert ([y] + s)[i] == s[i - 1];
      }
    }
  }

  /** Every element of `Insert(x, s, key)` is `x` or an element of `s`. */
  lemma InsertFrom(x: string, s: seq<string>, key: string -> string)
    ensures forall e :: e in Insert(x, s, key) ==> e == x || e in s
  {
    var r := Insert(x, s, key);
    forall e | e in r
      ensures e == x || e in s
    {
      assert e in multiset(r);
    }
  }

  /** A lower bound of `x` and of all of `s` bounds all of `Insert(x, s, key)`. */
  lemma InsertBound(y: string, x: string, s: seq<string>, key: string -> string)
    requires LexLe(key(y), key(x))
    requires forall j :: 0 <= j < |s| ==> LexLe(key(y), key(s[j]))
    ensures forall j :: 0 <= j < |Insert(x, s, key)| ==> LexLe(key(y), key(Insert(x, s, key)[j]))
  {
    InsertFrom(x, s, key);
    var r := Insert(x, s, key);
    forall j | 0 <= j < |r|
      ensures LexLe(key(y), key(r[j]))
    {
      assert r[j] in r;
    }
  }

  lemma {:induction false} InsertSorted(x: string, s: seq<string>, key: string -> string)
    requires SortedByKey(s, key)
    ensures SortedByKey(Insert(x, s, key), key)
  {
    if s == [] {
    } else if LexLe(key(x), key(s[0])) {
      forall j | 0 <= j < |s|
        ensures LexLe(key(x), key(s[j]))
      {
        if j > 0 {
          LexLeTransitive(key(x), key(s[0]), key(s[j]));
        }
      }
      SortedCons(x, s, key);
    } else {
      var rest := Insert(x, s[1..], key);
      InsertSorted(x, s[1..], key);
      LexLeTotal(key(x), key(s[0]));
      InsertBound(s[0], x, s[1..], key);
      SortedCons(s[0], rest, key);
    }
  }

  /** The result of `sorted` is in non-decreasing key order. */
  lemma {:induction false} SortSorted(xs: seq<string>, key: string -> string)
    ensures SortedByKey(SortByKey(xs, key), key)
  {
    if xs != [] {
      SortSorted(xs[1..], key);
      InsertSorted(xs[0], SortByKey(xs[1..], key), key);
    }
  }

  /** The elements of `xs` whose key is `k`, in their order. */
  function WithKey(xs: seq<string>, key: string -> string, k: string): (r: seq<string>)
  {
    if xs == [] then [] else (if key(xs[0]) == k then [xs[0]] else []) + WithKey(xs[1..], key, k)
  }

  lemma WithKeyCons(y: string, t: seq<string>, key: string -> string, k: string)
    ensures WithKey([y] + t, key, k) == (if key(y) == k then [y] else []) + WithKey(t, key, k)
  {
    assert ([y] + t)[1..] == t;
  }

  /** Putting `y` in front of a list in which `x` was put gives the same
      elements of key `k` as putting `x` in front, when `x` and `y` differ in key. */
  lemma WithKeySwap(x: string, y: string, rest: seq<string>, t: seq<string>, key: string -> string, k: string)
    requires key(x) != key(y)
    requires WithKey(rest, key, k) == (if key(x) == k then [x] else []) + WithKey(t, key, k)
    ensures WithKey([y] + rest, key, k) == (if key(x) == k then [x] else []) + WithKey([y] + t, key, k)
  {
    WithKeyCons(y, rest, key, k);
    WithKeyCons(y, t, key, k);
    var tail := WithKey(t, key, k);
    if key(x) == k {
      assert [] + ([x] + tail) == [x] + ([] + tail);
    } else {
      assert [] + tail == tail;
    }
  }

  lemma LexLeDiffers(a: string, b: string)
    requires !LexLe(a, b)
    ensures a != b
  {
    LexLeReflexive(a);
  }

  lemma {:induction false} InsertWithKey(x: string, s: seq<string>, key: string -> string, k: string)
    ensures WithKey(Insert(x, s, key), key, k) == (if key(x) == k then [x] else []) + WithKey(s, key, k)
  {
    if s == [] {
      WithKeyCons(x, [], key, k);
    } else if LexLe(key(x), key(s[0])) {
      WithKeyCons(x, s, key, k);
    } else {
      LexLeDiffers(key(x), key(s[0]));
      InsertWithKey(x, s[1..], key, k);
      WithKeySwap(x, s[0], Insert(x, s[1..], key), s[1..], key, k);
      ConsSplit(s);
    }
  }

  /** `sorted` is stable: the elements sharing any one key keep their input order. */
  lemma {:induction false} SortStable(xs: seq<string>, key: string -> string, k: string)
    ensures WithKey(SortByKey(xs, key), key, k) == WithKey(xs, key, k)
  {
    if xs != [] {
      SortStable(xs[1..], key, k);
      InsertWithKey(xs[0], SortByKey(xs[1..], key), key, k);
    }
  }
}
