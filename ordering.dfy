/**
 * The order in which a season folder's files are processed: the listing is
 * sorted lexicographically (`list.sort()` on strings), names without a digit
 * are dropped, and the rest are stably re-sorted by the integer value of
 * their first token (`list.sort(key=...)`, a stable sort).
 */
module Ordering {
  import opened Tokens

  /** Python's `a <= b` on strings: code-point lexicographic order. */
  predicate LexLe(a: string, b: string)
    decreases |a|
  {
    a == [] || (b != [] && (a[0] < b[0] || (a[0] == b[0] && LexLe(a[1..], b[1..]))))
  }

  lemma {:induction false} LexLeTotal(a: string, b: string)
    ensures LexLe(a, b) || LexLe(b, a)
    decreases |a|
  {
    if a != [] && b != [] && a[0] == b[0] {
      LexLeTotal(a[1..], b[1..]);
    }
  }

  lemma {:induction false} LexLeTransitive(a: string, b: string, c: string)
    requires LexLe(a, b) && LexLe(b, c)
    ensures LexLe(a, c)
    decreases |a|
  {
    if a != [] && a[0] == b[0] && b[0] == c[0] {
      LexLeTransitive(a[1..], b[1..], c[1..]);
    }
  }

  predicate LexSorted(s: seq<string>) {
    forall i, j :: 0 <= i < j < |s| ==> LexLe(s[i], s[j])
  }

  predicate Distinct(s: seq<string>) {
    forall i, j :: 0 <= i < j < |s| ==> s[i] != s[j]
  }

  function LexInsert(x: string, t: seq<string>): (r: seq<string>)
    ensures multiset(r) == multiset(t) + multiset{x}
  {
    if t == [] then [x]
    else if LexLe(x, t[0]) then [x] + t
    else
      assert t == [t[0]] + t[1..];
      [t[0]] + LexInsert(x, t[1..])
  }

  /** `get_content`'s sort of a directory listing. */
  function LexSort(s: seq<string>): (r: seq<string>)
    ensures multiset(r) == multiset(s)
  {
    if s == [] then []
    else
      assert s == [s[0]] + s[1..];
      LexInsert(s[0], LexSort(s[1..]))
  }

  lemma {:induction false} LexInsertSorted(x: string, t: seq<string>)
    requires LexSorted(t)
    ensures LexSorted(LexInsert(x, t))
    decreases |t|
  {
    if t != [] {
      var r := LexInsert(x, t);
      if LexLe(x, t[0]) {
        forall j | 1 <= j < |r| ensures LexLe(r[0], r[j]) {
          if j > 1 {
            LexLeTransitive(x, t[0], t[j - 1]);
          }
        }
      } else {
        LexLeTotal(x, t[0]);
        var r' := LexInsert(x, t[1..]);
        LexInsertSorted(x, t[1..]);
        assert forall k :: 0 <= k < |t[1..]| ==> LexLe(t[0], t[1..][k]);
        LexInsertBound(t[0], x, t[1..]);
        assert r == [t[0]] + r';
      }
    }
  }

  /** A lower bound of `x` and of every element of `t` bounds every element of the insertion. */
  lemma LexInsertBound(b: string, x: string, t: seq<string>)
    requires LexLe(b, x) && forall k :: 0 <= k < |t| ==> LexLe(b, t[k])
    ensures forall j :: 0 <= j < |LexInsert(x, t)| ==> LexLe(b, LexInsert(x, t)[j])
  {
    var r := LexInsert(x, t);
    forall j | 0 <= j < |r| ensures LexLe(b, r[j]) {
      assert r[j] in multiset(r);
      if r[j] != x {
        assert r[j] in multiset(t);
        var k :| 0 <= k < |t| && t[k] == r[j];
      }
    }
  }

  lemma {:induction false} LexInsertDistinct(x: string, t: seq<string>)
    requires Distinct(t) && x !in t
    ensures Distinct(LexInsert(x, t))
    decreases |t|
  {
    if t != [] && !LexLe(x, t[0]) {
      LexInsertDistinct(x, t[1..]);
      var r' := LexInsert(x, t[1..]);
      assert t[0] !in multiset(r') by {
        assert t[0] !in t[1..];
      }
    }
  }

  /**
   * The listing sort: the result is in ascending lexicographic order, is a
   * permutation of the listing, and keeps distinct names distinct.
   */
  lemma {:induction false} LexSortCorrect(s: seq<string>)
    ensures LexSorted(LexSort(s)) && multiset(LexSort(s)) == multiset(s)
    ensures Distinct(s) ==> Distinct(LexSort(s))
    decreases |s|
  {
    if s != [] {
      LexSortCorrect(s[1..]);
      LexInsertSorted(s[0], LexSort(s[1..]));
      if Distinct(s) {
        assert Distinct(s[1..]);
        assert s[0] !in multiset(LexSort(s[1..])) by {
          assert s[0] !in s[1..];
        }
        LexInsertDistinct(s[0], LexSort(s[1..]));
      }
    }
  }

  /** The names that contain a digit, in listing order (the filter `len(re.findall(...)) > 0`). */
  function DigitBearing(names: seq<string>): (r: seq<string>)
    ensures forall x :: multiset(r)[x] == if HasDigit(x) then multiset(names)[x] else 0
    ensures forall k :: 0 <= k < |r| ==> HasDigit(r[k])
  {
    if names == [] then []
    else if HasDigit(names[0]) then
      assert names == [names[0]] + names[1..];
      [names[0]] + DigitBearing(names[1..])
    else
      assert names == [names[0]] + names[1..];
      DigitBearing(names[1..])
  }

  /** The sort key of a file: the integer value of its first token. */
  function Key(name: string): nat {
    if HasDigit(name) then Value(FirstToken(name)) else 0
  }

  /** `s` is non-decreasing by `key`. */
  predicate KeySorted<T>(key: T -> nat, s: seq<T>) {
    forall i, j :: 0 <= i < j < |s| ==> key(s[i]) <= key(s[j])
  }

  /** Inserts `x` before the first element whose key is at least `x`'s. */
  function KeyInsert<T(==)>(key: T -> nat, x: T, t: seq<T>): (r: seq<T>)
    ensures multiset(r) == multiset(t) + multiset{x}
  {
    if t == [] then [x]
    else if key(x) <= key(t[0]) then [x] + t
    else
      assert t == [t[0]] + t[1..];
      [t[0]] + KeyInsert(key, x, t[1..])
  }

  /** A stable sort by `key`, as Python's `list.sort(key=...)`. */
  function KeySort<T(==)>(key: T -> nat, s: seq<T>): (r: seq<T>)
    ensures multiset(r) == multiset(s)
  {
    if s == [] then []
    else
      assert s == [s[0]] + s[1..];
      KeyInsert(key, s[0], KeySort(key, s[1..]))
  }

  /** The files of a folder listing in processing order. */
  function Ordered(listing: seq<string>): (r: seq<string>)
    ensures forall k :: 0 <= k < |r| ==> HasDigit(r[k])
  {
    var r := KeySort(Key, DigitBearing(listing));
    forall k | 0 <= k < |r| ensures HasDigit(r[k]) {
      assert r[k] in multiset(DigitBearing(listing));
    }
    r
  }

  /** The elements of `s` whose key is `k`, in order. */
  function WithKey<T>(key: T -> nat, s: seq<T>, k: nat): seq<T> {
    if s == [] then []
    else (if key(s[0]) == k then [s[0]] else []) + WithKey(key, s[1..], k)
  }

  /** Every key after inserting `x` is at least `b` when every key before it was. */
  lemma {:induction false} KeyInsertBound<T>(key: T -> nat, x: T, t: seq<T>, b: nat)
    requires b <= key(x) && forall j :: 0 <= j < |t| ==> b <= key(t[j])
    ensures forall j :: 0 <= j < |KeyInsert(key, x, t)| ==> b <= key(KeyInsert(key, x, t)[j])
    decreases |t|
  {
    if t != [] && key(x) > key(t[0]) {
      KeyInsertBound(key, x, t[1..], b);
    }
  }

  lemma {:induction false} KeyInsertSorted<T>(key: T -> nat, x: T, t: seq<T>)
    requires KeySorted(key, t)
    ensures KeySorted(key, KeyInsert(key, x, t))
    decreases |t|
  {
    if t != [] && key(x) > key(t[0]) {
      KeyInsertSorted(key, x, t[1..]);
      KeyInsertBound(key, x, t[1..], key(t[0]));
      var r' := KeyInsert(key, x, t[1..]);
      assert KeyInsert(key, x, t) == [t[0]] + r';
    }
  }

  lemma {:induction false} WithKeyAppend<T>(key: T -> nat, a: seq<T>, b: seq<T>, k: nat)
    ensures WithKey(key, a + b, k) == WithKey(key, a, k) + WithKey(key, b, k)
    decreases |a|
  {
    if a != [] {
      WithKeyAppend(key, a[1..], b, k);
      assert (a + b)[0] == a[0];
      assert (a + b)[1..] == a[1..] + b;
      assert WithKey(key, a + b, k) == (if key(a[0]) == k then [a[0]] else []) + WithKey(key, a[1..] + b, k);
    } else {
      assert a + b == b;
    }
  }

  /** Inserting `x` puts it ahead of every element that shares its key. */
  lemma {:induction false} KeyInsertStable<T>(key: T -> nat, x: T, t: seq<T>, k: nat)
    ensures WithKey(key, KeyInsert(key, x, t), k) == (if key(x) == k then [x] else []) + WithKey(key, t, k)
    decreases |t|
  {
    if t == [] {
      assert WithKey(key, [x], k) == (if key(x) == k then [x] else []) + WithKey(key, [], k);
    } else if key(x) <= key(t[0]) {
      WithKeyAppend(key, [x], t, k);
      assert WithKey(key, [x], k) == (if key(x) == k then [x] else []) + WithKey(key, [], k);
    } else {
      KeyInsertStable(key, x, t[1..], k);
      WithKeyAppend(key, [t[0]], KeyInsert(key, x, t[1..]), k);
      WithKeyAppend(key, [t[0]], t[1..], k);
      assert [t[0]] + t[1..] == t;
      assert WithKey(key, [t[0]], k) == (if key(t[0]) == k then [t[0]] else []) + WithKey(key, [], k);
    }
  }

  /**
   * Stability of the key sort: the elements that share a key come out in the
   * same relative order as they went in.
   */
  lemma {:induction false} KeySortStable<T>(key: T -> nat, s: seq<T>, k: nat)
    ensures WithKey(key, KeySort(key, s), k) == WithKey(key, s, k)
    decreases |s|
  {
    if s != [] {
      KeySortStable(key, s[1..], k);
      KeyInsertStable(key, s[0], KeySort(key, s[1..]), k);
    }
  }

  lemma {:induction false} KeySortSorted<T>(key: T -> nat, s: seq<T>)
    ensures KeySorted(key, KeySort(key, s))
    decreases |s|
  {
    if s != [] {
      KeySortSorted(key, s[1..]);
      KeyInsertSorted(key, s[0], KeySort(key, s[1..]));
    }
  }

  lemma {:induction false} WithKeyMembers<T>(key: T -> nat, s: seq<T>, k: nat)
    ensures forall x :: x in WithKey(key, s, k) ==> x in s
    decreases |s|
  {
    if s != [] {
      WithKeyMembers(key, s[1..], k);
    }
  }

  lemma {:induction false} WithKeySorted(s: seq<string>, k: nat)
    requires LexSorted(s)
    ensures LexSorted(WithKey(Key, s, k))
    decreases |s|
  {
    if s != [] {
      WithKeySorted(s[1..], k);
      WithKeyMembers(Key, s[1..], k);
      var w := WithKey(Key, s[1..], k);
      forall j | 0 <= j < |w| ensures LexLe(s[0], w[j]) {
        assert w[j] in s[1..];
      }
    }
  }

  lemma {:induction false} DigitBearingSorted(s: seq<string>)
    requires LexSorted(s)
    ensures LexSorted(DigitBearing(s))
    decreases |s|
  {
    if s != [] {
      DigitBearingSorted(s[1..]);
      var d := DigitBearing(s[1..]);
      forall j | 0 <= j < |d| ensures LexLe(s[0], d[j]) {
        assert d[j] in multiset(d);
        assert d[j] in s[1..];
      }
    }
  }

  /**
   * The processing order of a folder listed as `raw`: exactly the names that
   * contain a digit (with their multiplicities), non-decreasing by the value
   * of the first token, and files with equal values in lexicographic order.
   */
  lemma OrderedCorrect(raw: seq<string>)
    ensures var r := Ordered(LexSort(raw));
            (forall x :: multiset(r)[x] == if HasDigit(x) then multiset(raw)[x] else 0) &&
            KeySorted(Key, r) &&
            (forall k :: LexSorted(WithKey(Key, r, k)))
  {
    var listing := LexSort(raw);
    var d := DigitBearing(listing);
    LexSortCorrect(raw);
    KeySortSorted(Key, d);
    DigitBearingSorted(listing);
    forall k ensures LexSorted(WithKey(Key, Ordered(listing), k)) {
      KeySortStable(Key, d, k);
      WithKeySorted(d, k);
    }
  }
}
