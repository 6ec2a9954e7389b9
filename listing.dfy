/** What the list pages share: the sort-header state machine, JavaScript's
    `<` on the values a comparator sees, the comparator that turns it into
    -1 / 1 / 0 by direction, and the (stable) sort that uses it. */
module Listing {

  datatype Direction = Asc | Desc

  function Flip(d: Direction): (r: Direction)
    ensures r != d
  {
    if d == Asc then Desc else Asc
  }

  /** handleSort: a click on the current field flips the direction, a click
      on another field selects it in ascending order. */
  function NextSort<F(==)>(field: F, direction: Direction, clicked: F): (r: (F, Direction))
    ensures r.0 == clicked
    ensures clicked == field ==> r.1 != direction
    ensures clicked != field ==> r.1 == Asc
  {
    if field == clicked then (field, Flip(direction)) else (clicked, Asc)
  }

  /** Two clicks on the same header: back to where it was when it was the
      current field, descending when it was not. */
  lemma ClickTwice<F>(field: F, direction: Direction, clicked: F)
    ensures var once := NextSort(field, direction, clicked);
      NextSort(once.0, once.1, clicked) == (clicked, if clicked == field then direction else Desc)
  {
  }

  // ---------------------------------------------------------------------
  // values and JavaScript's `<`

  /** A compared value: a number, a (lower-cased) string, or something that
      compares false both ways (`undefined`, an invalid date's NaN). */
  datatype Value = Num(n: int) | Str(s: string) | Undefined

  /** `<` on two strings: lexicographic on character codes. */
  predicate StrLess(a: string, b: string)
    decreases |a|
  {
    if a == [] then b != []
    else if b == [] then false
    else if a[0] != b[0] then a[0] < b[0]
    else StrLess(a[1..], b[1..])
  }

  predicate Less(a: Value, b: Value) {
    match (a, b)
    case (Num(x), Num(y)) => x < y
    case (Str(x), Str(y)) => StrLess(x, y)
    case _ => false
  }

  lemma {:induction false} StrLessAsymmetric(a: string, b: string)
    ensures !(StrLess(a, b) && StrLess(b, a))
    decreases |a|
  {
    if a != [] && b != [] && a[0] == b[0] {
      StrLessAsymmetric(a[1..], b[1..]);
    }
  }

  lemma {:induction false} StrLessTransitive(a: string, b: string, c: string)
    requires StrLess(a, b) && StrLess(b, c)
    ensures StrLess(a, c)
    decreases |a|
  {
    if a != [] && b != [] && c != [] && a[0] == b[0] && b[0] == c[0] {
      StrLessTransitive(a[1..], b[1..], c[1..]);
    }
  }

  lemma {:induction false} StrLessTotal(a: string, b: string)
    requires a != b
    ensures StrLess(a, b) || StrLess(b, a)
    decreases |a|
  {
    if a != [] && b != [] && a[0] == b[0] {
      assert a == [a[0]] + a[1..] && b == [b[0]] + b[1..];
      StrLessTotal(a[1..], b[1..]);
    }
  }

  /** Two values that `<` genuinely orders: two numbers or two strings. */
  predicate Comparable(a: Value, b: Value) {
    (a.Num? && b.Num?) || (a.Str? && b.Str?)
  }

  // ---------------------------------------------------------------------
  // the comparator

  /** `if (a < b) return asc ? -1 : 1; if (a > b) return asc ? 1 : -1; return 0`. */
  function Compare(a: Value, b: Value, dir: Direction): (r: int)
    ensures r == -1 || r == 0 || r == 1
    ensures r == 0 <==> !Less(a, b) && !Less(b, a)
    ensures dir == Asc && Less(a, b) ==> r == -1
    ensures dir == Desc && Less(a, b) ==> r == 1
  {
    if Less(a, b) then (if dir == Asc then -1 else 1)
    else if Less(b, a) then (if dir == Asc then 1 else -1)
    else 0
  }

  lemma LessAsymmetric(a: Value, b: Value)
    ensures !(Less(a, b) && Less(b, a))
  {
    if a.Str? && b.Str? {
      StrLessAsymmetric(a.s, b.s);
    }
  }

  /** Descending order is ascending order with the arguments swapped. */
  lemma DescReversesAsc(a: Value, b: Value)
    ensures Compare(a, b, Desc) == Compare(b, a, Asc)
  {
    LessAsymmetric(a, b);
  }

  /** The comparator is antisymmetric for every pair of values. */
  lemma CompareAntisymmetric(a: Value, b: Value, dir: Direction)
    ensures Compare(a, b, dir) == -Compare(b, a, dir)
  {
    LessAsymmetric(a, b);
  }

  /** "Not after" is transitive among values of one kind. */
  lemma CompareTransitive(a: Value, b: Value, c: Value, dir: Direction)
    requires Comparable(a, b) && Comparable(b, c)
    requires Compare(a, b, dir) <= 0 && Compare(b, c, dir) <= 0
    ensures Compare(a, c, dir) <= 0
  {
    LessAsymmetric(a, b);
    LessAsymmetric(b, c);
    LessAsymmetric(a, c);
    if a.Str? {
      var x, y, z := a.s, b.s, c.s;
      if x != y { StrLessTotal(x, y); }
      if y != z { StrLessTotal(y, z); }
      if StrLess(x, y) && StrLess(y, z) { StrLessTransitive(x, y, z); }
      if StrLess(y, x) && StrLess(z, y) { StrLessTransitive(z, y, x); }
    }
  }

  // ---------------------------------------------------------------------
  // the sort

  /** Adjacent elements are in comparator order (all that a comparator that
      is not a total order can promise). */
  predicate LocallySorted<T>(s: seq<T>, key: T -> Value, dir: Direction) {
    forall i :: 1 <= i < |s| ==> Compare(key(s[i - 1]), key(s[i]), dir) <= 0
  }

  /** Every pair of elements is in comparator order. */
  predicate Sorted<T>(s: seq<T>, key: T -> Value, dir: Direction) {
    forall i, j :: 0 <= i < j < |s| ==> Compare(key(s[i]), key(s[j]), dir) <= 0
  }

  /** Every key is of one kind, so the comparator is a total preorder on them. */
  predicate OneKind<T>(s: seq<T>, key: T -> Value) {
    (forall k :: 0 <= k < |s| ==> key(s[k]).Num?) || (forall k :: 0 <= k < |s| ==> key(s[k]).Str?)
  }

  /** Place `x` before the first element it does not come after. */
  function Insert<T>(x: T, t: seq<T>, key: T -> Value, dir: Direction): (r: seq<T>)
    ensures multiset(r) == multiset([x] + t)
    ensures r != [] && (r[0] == x || (t != [] && r[0] == t[0]))
  {
    if t == [] || Compare(key(x), key(t[0]), dir) <= 0 then [x] + t
    else
      assert multiset([x] + t) == multiset([t[0]] + ([x] + t[1..])) by {
        assert t == [t[0]] + t[1..];
      }
      [t[0]] + Insert(x, t[1..], key, dir)
  }

  lemma {:induction false} InsertSorted<T>(x: T, t: seq<T>, key: T -> Value, dir: Direction)
    requires LocallySorted(t, key, dir)
    ensures LocallySorted(Insert(x, t, key, dir), key, dir)
  {
    if t != [] && Compare(key(x), key(t[0]), dir) > 0 {
      CompareAntisymmetric(key(x), key(t[0]), dir);
      var rest := Insert(x, t[1..], key, dir);
      InsertSorted(x, t[1..], key, dir);
      var r := [t[0]] + rest;
      forall i | 1 <= i < |r| ensures Compare(key(r[i - 1]), key(r[i]), dir) <= 0 {
        if i == 1 {
          assert r[1] == rest[0];
        } else {
          assert r[i - 1] == rest[i - 2] && r[i] == rest[i - 1];
        }
      }
    }
  }

  /** `array.sort(comparator)`: a stable insertion sort, the order a
      conforming engine must produce for a consistent comparator. */
  function SortBy<T>(s: seq<T>, key: T -> Value, dir: Direction): (r: seq<T>)
    ensures multiset(r) == multiset(s)
    ensures LocallySorted(r, key, dir)
  {
    if s == [] then []
    else
      var rest := SortBy(s[1..], key, dir);
      InsertSorted(s[0], rest, key, dir);
      assert s == [s[0]] + s[1..];
      Insert(s[0], rest, key, dir)
  }

  lemma {:induction false} SortedOfLocally<T>(s: seq<T>, key: T -> Value, dir: Direction)
    requires LocallySorted(s, key, dir) && OneKind(s, key)
    ensures Sorted(s, key, dir)
  {
    if |s| > 1 {
      var t := s[1..];
      assert LocallySorted(t, key, dir) by {
        forall i | 1 <= i < |t| ensures Compare(key(t[i - 1]), key(t[i]), dir) <= 0 {
          assert t[i - 1] == s[i] && t[i] == s[i + 1];
        }
      }
      assert OneKind(t, key) by {
        assert forall k :: 0 <= k < |t| ==> t[k] == s[k + 1];
      }
      SortedOfLocally(t, key, dir);
      forall i, j | 0 <= i < j < |s| ensures Compare(key(s[i]), key(s[j]), dir) <= 0 {
        if i > 0 {
          assert s[i] == t[i - 1] && s[j] == t[j - 1];
        } else if j > 1 {
          assert s[1] == t[0] && s[j] == t[j - 1];
          CompareTransitive(key(s[0]), key(s[1]), key(s[j]), dir);
        }
      }
    }
  }

  /** The sort is a permutation, and when every key is of one kind the
      result is in comparator order throughout. */
  lemma SortBySorted<T>(s: seq<T>, key: T -> Value, dir: Direction)
    requires OneKind(s, key)
    ensures multiset(SortBy(s, key, dir)) == multiset(s)
    ensures Sorted(SortBy(s, key, dir), key, dir)
  {
    var r := SortBy(s, key, dir);
    assert OneKind(r, key) by {
      forall k | 0 <= k < |r| ensures r[k] in multiset(s) {
        assert r[k] in multiset(r);
      }
      forall k | 0 <= k < |r| ensures exists m :: 0 <= m < |s| && s[m] == r[k] {
        assert r[k] in multiset(s);
        assert r[k] in s;
      }
    }
    SortedOfLocally(r, key, dir);
  }

  /** A comparator that always answers 0 leaves the order alone. */
  lemma {:induction false} SortByAllUndefined<T>(s: seq<T>, key: T -> Value, dir: Direction)
    requires forall k :: 0 <= k < |s| ==> key(s[k]) == Undefined
    ensures SortBy(s, key, dir) == s
  {
    if s != [] {
      var t := s[1..];
      forall k | 0 <= k < |t| ensures key(t[k]) == Undefined {
        assert t[k] == s[k + 1];
      }
      calc {
        SortBy(s, key, dir);
        Insert(s[0], SortBy(t, key, dir), key, dir);
        { SortByAllUndefined(t, key, dir); }
        Insert(s[0], t, key, dir);
        { InsertBeforeUndefined(s[0], t, key, dir); }
        [s[0]] + t;
        { assert s == [s[0]] + t; }
        s;
      }
    }
  }

  /** "The key equals `v`", as a value for `Filter`. */
  function KeyIs<T>(key: T -> Value, v: Value): T -> bool {
    x => key(x) == v
  }

  /** Inserting `x` puts it in front of every element with its own key. */
  lemma {:induction false} InsertStable<T>(x: T, t: seq<T>, key: T -> Value, dir: Direction, v: Value)
    ensures Filter(Insert(x, t, key, dir), KeyIs(key, v)) ==
      if key(x) == v then [x] + Filter(t, KeyIs(key, v)) else Filter(t, KeyIs(key, v))
  {
    var p := KeyIs(key, v);
    if t == [] || Compare(key(x), key(t[0]), dir) <= 0 {
      assert Insert(x, t, key, dir) == [x] + t;
      FilterCons(x, t, p);
    } else {
      var rest := Insert(x, t[1..], key, dir);
      assert Insert(x, t, key, dir) == [t[0]] + rest;
      LessAsymmetric(key(x), key(x));
      assert p(t[0]) ==> !p(x);
      InsertStable(x, t[1..], key, dir, v);
      FilterCons(t[0], rest, p);
      assert t == [t[0]] + t[1..];
      FilterCons(t[0], t[1..], p);
    }
  }

  /** Filtering a list that starts with `a`. */
  lemma FilterCons<T>(a: T, t: seq<T>, keep: T -> bool)
    ensures Filter([a] + t, keep) == if keep(a) then [a] + Filter(t, keep) else Filter(t, keep)
  {
    assert ([a] + t)[1..] == t;
  }

  /** The sort is stable: the elements with any one key come out in the
      order they went in. */
  lemma {:induction false} SortByStable<T>(s: seq<T>, key: T -> Value, dir: Direction, v: Value)
    ensures Filter(SortBy(s, key, dir), KeyIs(key, v)) == Filter(s, KeyIs(key, v))
  {
    if s != [] {
      SortByStable(s[1..], key, dir, v);
      InsertStable(s[0], SortBy(s[1..], key, dir), key, dir, v);
    }
  }

  /** An undefined value goes in front of a list that starts undefined. */
  lemma InsertBeforeUndefined<T>(x: T, t: seq<T>, key: T -> Value, dir: Direction)
    requires key(x) == Undefined && (t != [] ==> key(t[0]) == Undefined)
    ensures Insert(x, t, key, dir) == [x] + t
  {
    if t != [] {
      assert Compare(key(x), key(t[0]), dir) == 0;
    }
  }

  /** Ascending on numbers is non-decreasing and descending non-increasing. */
  lemma NumbersInOrder<T>(s: seq<T>, key: T -> Value, dir: Direction, i: int, j: int)
    requires Sorted(s, key, dir) && 0 <= i < j < |s| && key(s[i]).Num? && key(s[j]).Num?
    ensures dir == Asc ==> key(s[i]).n <= key(s[j]).n
    ensures dir == Desc ==> key(s[i]).n >= key(s[j]).n
  {
    assert Compare(key(s[i]), key(s[j]), dir) <= 0;
  }

  // ---------------------------------------------------------------------
  // filters

  /** `r` is `s` with some elements left out, the rest in their order. */
  predicate IsSubsequence<T(==)>(r: seq<T>, s: seq<T>)
    decreases |s|
  {
    if r == [] then true
    else if s == [] then false
    else (r[0] == s[0] && IsSubsequence(r[1..], s[1..])) || IsSubsequence(r, s[1..])
  }

  /** `array.filter(keep)`. */
  function Filter<T(==)>(s: seq<T>, keep: T -> bool): (r: seq<T>)
    ensures |r| <= |s|
    ensures forall k :: 0 <= k < |r| ==> r[k] in s && keep(r[k])
    ensures forall k :: 0 <= k < |s| && keep(s[k]) ==> s[k] in r
    ensures IsSubsequence(r, s)
  {
    if s == [] then []
    else if keep(s[0]) then [s[0]] + Filter(s[1..], keep)
    else Filter(s[1..], keep)
  }

  /** A filter keeps each kept element as often as it occurs, and nothing
      more. */
  lemma {:induction false} FilterMultiset<T>(s: seq<T>, keep: T -> bool)
    ensures forall x :: multiset(Filter(s, keep))[x] == if keep(x) then multiset(s)[x] else 0
  {
    if s != [] {
      FilterMultiset(s[1..], keep);
      assert s == [s[0]] + s[1..];
      FilterCons(s[0], s[1..], keep);
      assert multiset(s) == multiset([s[0]]) + multiset(s[1..]);
    }
  }


  /** A filter that keeps everything returns the list itself. */
  lemma {:induction false} FilterKeepsAll<T>(s: seq<T>, keep: T -> bool)
    requires forall k :: 0 <= k < |s| ==> keep(s[k])
    ensures Filter(s, keep) == s
  {
    if s != [] {
      FilterKeepsAll(s[1..], keep);
      assert s == [s[0]] + s[1..];
    }
  }

  /** Two tests that agree on every element keep the same elements. */
  lemma {:induction false} FilterAgreeing<T>(s: seq<T>, keep: T -> bool, keep': T -> bool)
    requires forall k :: 0 <= k < |s| ==> keep(s[k]) == keep'(s[k])
    ensures Filter(s, keep) == Filter(s, keep')
  {
    if s != [] {
      FilterAgreeing(s[1..], keep, keep');
    }
  }

  /** Filtering then sorting shows exactly the kept elements, each as often
      as it occurs, in comparator order when the keys are of one kind. */
  lemma FilterThenSort<T>(s: seq<T>, keep: T -> bool, key: T -> Value, dir: Direction)
    requires OneKind(s, key)
    ensures var shown := SortBy(Filter(s, keep), key, dir);
      && multiset(shown) == multiset(Filter(s, keep))
      && (forall k :: 0 <= k < |shown| ==> shown[k] in s && keep(shown[k]))
      && (forall k :: 0 <= k < |s| && keep(s[k]) ==> s[k] in shown)
      && Sorted(shown, key, dir)
  {
    var filtered := Filter(s, keep);
    var shown := SortBy(filtered, key, dir);
    assert OneKind(filtered, key) by {
      assert forall k :: 0 <= k < |filtered| ==> exists m :: 0 <= m < |s| && s[m] == filtered[k];
    }
    SortBySorted(filtered, key, dir);
    forall k | 0 <= k < |shown| ensures shown[k] in s && keep(shown[k]) {
      assert shown[k] in multiset(filtered);
      assert shown[k] in filtered;
    }
    forall k | 0 <= k < |s| && keep(s[k]) ensures s[k] in shown {
      assert s[k] in filtered;
      assert s[k] in multiset(shown);
    }
  }
}
