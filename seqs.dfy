/**
 * The array operations the sources use (`filter`, `map`, `forEach` with an index, `[...new Set(...)]`)
 * and what they keep.
 */
module Seqs {

  /** `xs.filter(f)`. */
  function Filter<T>(f: T -> bool, xs: seq<T>): (r: seq<T>)
    ensures |r| <= |xs|
  {
    if xs == [] then []
    else if f(xs[0]) then [xs[0]] + Filter(f, xs[1..])
    else Filter(f, xs[1..])
  }

  /** An element is kept exactly when it is in the input and passes. */
  lemma {:induction false} FilterMembers<T>(f: T -> bool, xs: seq<T>, x: T)
    ensures x in Filter(f, xs) <==> x in xs && f(x)
  {
    if xs != [] {
      FilterMembers(f, xs[1..], x);
      assert xs == [xs[0]] + xs[1..];
    }
  }

  /** Filtering is decided element by element: the filter of a concatenation is the concatenation of the filters. */
  lemma {:induction false} FilterConcat<T>(f: T -> bool, a: seq<T>, b: seq<T>)
    ensures Filter(f, a + b) == Filter(f, a) + Filter(f, b)
  {
    if a == [] {
      assert a + b == b;
    } else {
      var h := if f(a[0]) then [a[0]] else [];
      calc {
        Filter(f, a + b);
        { assert (a + b)[0] == a[0]; }
        h + Filter(f, (a + b)[1..]);
        { assert (a + b)[1..] == a[1..] + b; }
        h + Filter(f, a[1..] + b);
        { FilterConcat(f, a[1..], b); }
        h + (Filter(f, a[1..]) + Filter(f, b));
        (h + Filter(f, a[1..])) + Filter(f, b);
      }
    }
  }

  /** Every element passes: nothing is dropped. */
  lemma {:induction false} FilterAll<T>(f: T -> bool, xs: seq<T>)
    requires forall i :: 0 <= i < |xs| ==> f(xs[i])
    ensures Filter(f, xs) == xs
  {
    if xs != [] {
      FilterAll(f, xs[1..]);
    }
  }

  /** Every position, one further on. */
  function Shift(ps: seq<nat>): (r: seq<nat>)
    ensures |r| == |ps| && forall k :: 0 <= k < |ps| ==> r[k] == ps[k] + 1
  {
    seq(|ps|, k requires 0 <= k < |ps| => ps[k] + 1)
  }

  /** The positions of the elements that pass, from first to last. */
  function Positions<T>(f: T -> bool, xs: seq<T>): seq<nat> {
    if xs == [] then []
    else if f(xs[0]) then [0] + Shift(Positions(f, xs[1..]))
    else Shift(Positions(f, xs[1..]))
  }

  /** Shifting lists `p + 1` exactly when `p` was listed, and never lists 0. */
  lemma ShiftMember(ps: seq<nat>, p: nat)
    ensures p + 1 in Shift(ps) <==> p in ps
    ensures 0 !in Shift(ps)
  {
    if p in ps {
      var k :| 0 <= k < |ps| && ps[k] == p;
      assert Shift(ps)[k] == p + 1;
    }
  }

  /** There are as many positions as elements kept. */
  lemma {:induction false} PositionsLength<T>(f: T -> bool, xs: seq<T>)
    ensures |Positions(f, xs)| == |Filter(f, xs)|
  {
    if xs != [] {
      PositionsLength(f, xs[1..]);
    }
  }

  /** The `k`-th element kept is the element at the `k`-th position. */
  lemma {:induction false} FilterAtPosition<T>(f: T -> bool, xs: seq<T>, k: nat)
    requires k < |Positions(f, xs)|
    ensures k < |Filter(f, xs)| && Positions(f, xs)[k] < |xs| && Filter(f, xs)[k] == xs[Positions(f, xs)[k]]
  {
    PositionsLength(f, xs);
    var tail := xs[1..];
    if f(xs[0]) {
      if k > 0 {
        FilterAtPosition(f, tail, k - 1);
      }
    } else {
      FilterAtPosition(f, tail, k);
    }
  }

  /** The positions are strictly increasing. */
  lemma {:induction false} PositionsIncrease<T>(f: T -> bool, xs: seq<T>, j: nat, k: nat)
    requires j < k < |Positions(f, xs)|
    ensures Positions(f, xs)[j] < Positions(f, xs)[k]
  {
    if f(xs[0]) {
      if j > 0 {
        PositionsIncrease(f, xs[1..], j - 1, k - 1);
      }
    } else {
      PositionsIncrease(f, xs[1..], j, k);
    }
  }

  /** A position is listed exactly when its element passes. */
  lemma {:induction false} PositionsExact<T>(f: T -> bool, xs: seq<T>, i: nat)
    requires i < |xs|
    ensures i in Positions(f, xs) <==> f(xs[i])
  {
    var tail := xs[1..];
    var rest := Positions(f, tail);
    if i > 0 {
      PositionsExact(f, tail, i - 1);
      ShiftMember(rest, i - 1);
      assert xs[i] == tail[i - 1];
    } else {
      ShiftMember(rest, 0);
    }
    if f(xs[0]) {
      assert Positions(f, xs) == [0] + Shift(rest);
    } else {
      assert Positions(f, xs) == Shift(rest);
    }
  }

  /** `p` is a prefix of `s`. */
  ghost predicate IsPrefix<T>(p: seq<T>, s: seq<T>) {
    |p| <= |s| && s[..|p|] == p
  }

  lemma PrefixOfConcat<T>(a: seq<T>, b: seq<T>)
    ensures IsPrefix(a, a + b)
  {
    assert (a + b)[..|a|] == a;
  }

  lemma ConcatAssoc<T>(a: seq<T>, b: seq<T>, c: seq<T>)
    ensures a + b + c == a + (b + c)
  {
  }

  /** Each element transformed together with its position, as a `forEach((x, i) => ...)` that pushes `f(x, i)` does. */
  function MapWithIndex<T, U>(f: (T, nat) -> U, xs: seq<T>): (r: seq<U>)
    ensures |r| == |xs|
  {
    if xs == [] then [] else MapWithIndex(f, xs[..|xs| - 1]) + [f(xs[|xs| - 1], |xs| - 1)]
  }

  /** Element `i` of the result is `f` of element `i` and `i`. */
  lemma {:induction false} MapWithIndexAt<T, U>(f: (T, nat) -> U, xs: seq<T>, i: nat)
    requires i < |xs|
    ensures MapWithIndex(f, xs)[i] == f(xs[i], i)
  {
    var n := |xs| - 1;
    if i < n {
      MapWithIndexAt(f, xs[..n], i);
    }
  }

  /** Extending the prefix by one element extends the result by that element's image. */
  lemma MapWithIndexPrefixSnoc<T, U>(f: (T, nat) -> U, xs: seq<T>, i: nat)
    requires i < |xs|
    ensures MapWithIndex(f, xs[..i + 1]) == MapWithIndex(f, xs[..i]) + [f(xs[i], i)]
  {
    assert xs[..i + 1][..i] == xs[..i];
  }

  /** `xs.map(f)`. */
  function Map<T, U>(f: T -> U, xs: seq<T>): (r: seq<U>)
    ensures |r| == |xs|
  {
    if xs == [] then [] else [f(xs[0])] + Map(f, xs[1..])
  }

  /** Element `i` of the result is `f` of element `i`. */
  lemma {:induction false} MapAt<T, U>(f: T -> U, xs: seq<T>, i: nat)
    requires i < |xs|
    ensures Map(f, xs)[i] == f(xs[i])
  {
    if i > 0 {
      MapAt(f, xs[1..], i - 1);
    }
  }

  /** Appending one element appends its image. */
  lemma {:induction false} MapSnoc<T, U>(f: T -> U, xs: seq<T>, x: T)
    ensures Map(f, xs + [x]) == Map(f, xs) + [f(x)]
  {
    if xs != [] {
      assert (xs + [x])[1..] == xs[1..] + [x];
      MapSnoc(f, xs[1..], x);
    }
  }

  /** The image of a member is a member of the image. */
  lemma MapMember<T, U>(f: T -> U, xs: seq<T>, x: T)
    requires x in xs
    ensures f(x) in Map(f, xs)
  {
    var i :| 0 <= i < |xs| && xs[i] == x;
    MapAt(f, xs, i);
  }

  /** No value occurs twice. */
  predicate NoDup<T(==)>(xs: seq<T>) {
    forall j, k :: 0 <= j < k < |xs| ==> xs[j] != xs[k]
  }

  /** `[...new Set(xs)]`: every value once, in the order of its first occurrence. */
  function Distinct<T(==)>(xs: seq<T>): (r: seq<T>)
    ensures |r| <= |xs|
  {
    if xs == [] then []
    else
      var d := Distinct(xs[..|xs| - 1]);
      if xs[|xs| - 1] in d then d else d + [xs[|xs| - 1]]
  }

  /** A value is kept exactly when it occurs. */
  lemma {:induction false} DistinctMembers<T>(xs: seq<T>)
    ensures forall x :: x in Distinct(xs) <==> x in xs
  {
    if xs != [] {
      var init := xs[..|xs| - 1];
      DistinctMembers(init);
      assert xs == init + [xs[|xs| - 1]];
    }
  }

  /** No value is kept twice. */
  lemma {:induction false} DistinctNoDup<T>(xs: seq<T>)
    ensures NoDup(Distinct(xs))
  {
    if xs != [] {
      var init := xs[..|xs| - 1];
      DistinctNoDup(init);
      DistinctMembers(init);
    }
  }

  /** How many times `x` occurs in `xs`. */
  function Occurrences<T(==)>(xs: seq<T>, x: T): nat {
    if xs == [] then 0 else Occurrences(xs[..|xs| - 1], x) + (if xs[|xs| - 1] == x then 1 else 0)
  }

  /** Every value that occurs is kept exactly once. */
  lemma {:induction false} DistinctOnce<T>(xs: seq<T>, x: T)
    ensures Occurrences(Distinct(xs), x) == if x in xs then 1 else 0
  {
    if xs != [] {
      var init := xs[..|xs| - 1];
      var last := xs[|xs| - 1];
      var d := Distinct(init);
      DistinctOnce(init, x);
      DistinctMembers(init);
      assert xs == init + [last];
      assert (d + [last])[..|d|] == d;
    }
  }

  /** A value added at the end is kept when it is new. */
  lemma DistinctSnoc<T>(xs: seq<T>, x: T)
    ensures Distinct(xs + [x]) == if x in Distinct(xs) then Distinct(xs) else Distinct(xs) + [x]
  {
    assert (xs + [x])[..|xs|] == xs;
  }

  /** Where `x` first occurs in `xs`. */
  function FirstIndex<T(==)>(xs: seq<T>, x: T): (i: nat)
    requires x in xs
    ensures i < |xs| && xs[i] == x && x !in xs[..i]
  {
    if xs[0] == x then 0
    else
      assert x in xs[1..] by {
        var k :| 0 <= k < |xs| && xs[k] == x;
        assert xs[1..][k - 1] == x;
      }
      var i := 1 + FirstIndex(xs[1..], x);
      assert xs[..i] == [xs[0]] + xs[1..][..i - 1];
      i
  }

  /** A first occurrence is unchanged by elements added at the end. */
  lemma {:induction false} FirstIndexSnoc<T>(xs: seq<T>, y: T, x: T)
    requires x in xs
    ensures FirstIndex(xs + [y], x) == FirstIndex(xs, x)
  {
    if xs[0] != x {
      assert (xs + [y])[1..] == xs[1..] + [y];
      assert x in xs[1..] by {
        var k := FirstIndex(xs, x);
        assert xs[1..][k - 1] == x;
      }
      FirstIndexSnoc(xs[1..], y, x);
    }
  }

  /** A value that does not occur before the last element first occurs there. */
  lemma FirstIndexLast<T>(xs: seq<T>, x: T)
    requires x !in xs
    ensures FirstIndex(xs + [x], x) == |xs|
  {
  }

  /** Every kept value occurs in the input. */
  lemma DistinctKept<T>(xs: seq<T>, j: nat)
    requires j < |Distinct(xs)|
    ensures Distinct(xs)[j] in xs
  {
    DistinctMembers(xs);
    assert Distinct(xs)[j] in Distinct(xs);
  }

  /** The kept values come in the order in which each first occurs. */
  lemma {:induction false} DistinctFirstSeen<T>(xs: seq<T>, j: nat, k: nat)
    requires j < k < |Distinct(xs)|
    ensures Distinct(xs)[j] in xs && Distinct(xs)[k] in xs
    ensures FirstIndex(xs, Distinct(xs)[j]) < FirstIndex(xs, Distinct(xs)[k])
  {
    var init := xs[..|xs| - 1];
    var last := xs[|xs| - 1];
    var d := Distinct(init);
    assert Distinct(xs) == if last in d then d else d + [last];
    assert xs == init + [last];
    assert Distinct(xs)[j] == d[j];
    DistinctKept(init, j);
    FirstIndexSnoc(init, last, d[j]);
    if k < |d| {
      assert Distinct(xs)[k] == d[k];
      DistinctKept(init, k);
      DistinctFirstSeen(init, j, k);
      FirstIndexSnoc(init, last, d[k]);
    } else {
      assert Distinct(xs)[k] == last;
      DistinctMembers(init);
      FirstIndexLast(init, last);
    }
  }

  /** The test `x => f(x) === k`. */
  function KeyIs<T, U(==)>(f: T -> U, k: U): T -> bool {
    x => f(x) == k
  }

  /** `xs.filter(x => f(x) === k).length`. */
  function CountKey<T, U(==)>(f: T -> U, xs: seq<T>, k: U): nat {
    |Filter(KeyIs(f, k), xs)|
  }

  /** An element added at the end counts once, for its own key only. */
  lemma CountKeySnoc<T, U>(f: T -> U, xs: seq<T>, x: T, k: U)
    ensures CountKey(f, xs + [x], k) == CountKey(f, xs, k) + (if f(x) == k then 1 else 0)
  {
    FilterConcat(KeyIs(f, k), xs, [x]);
    assert [x][1..] == [];
  }

  /** A key no element has is counted zero times. */
  lemma CountKeyAbsent<T, U>(f: T -> U, xs: seq<T>, k: U)
    requires k !in Map(f, xs)
    ensures CountKey(f, xs, k) == 0
  {
    var kept := Filter(KeyIs(f, k), xs);
    if |kept| > 0 {
      FilterMembers(KeyIs(f, k), xs, kept[0]);
      MapMember(f, xs, kept[0]);
      assert false;
    }
  }

  /** A key that some element has is counted at least once. */
  lemma CountKeyPresent<T, U>(f: T -> U, xs: seq<T>, k: U)
    requires k in Map(f, xs)
    ensures CountKey(f, xs, k) >= 1
  {
    var i :| 0 <= i < |Map(f, xs)| && Map(f, xs)[i] == k;
    MapAt(f, xs, i);
    FilterMembers(KeyIs(f, k), xs, xs[i]);
  }

  /** The count of each key of `ks`, in the order of `ks`. */
  function Counts<T, U(==)>(f: T -> U, xs: seq<T>, ks: seq<U>): (r: seq<nat>)
    ensures |r| == |ks|
    ensures forall j :: 0 <= j < |ks| ==> r[j] == CountKey(f, xs, ks[j])
  {
    if ks == [] then [] else Counts(f, xs, ks[..|ks| - 1]) + [CountKey(f, xs, ks[|ks| - 1])]
  }

  lemma CountsSnoc<T, U>(f: T -> U, xs: seq<T>, ks: seq<U>, k: U)
    ensures Counts(f, xs, ks + [k]) == Counts(f, xs, ks) + [CountKey(f, xs, k)]
  {
    assert (ks + [k])[..|ks|] == ks;
  }

  function Sum(ns: seq<nat>): nat {
    if ns == [] then 0 else Sum(ns[..|ns| - 1]) + ns[|ns| - 1]
  }

  lemma SumSnoc(ns: seq<nat>, n: nat)
    ensures Sum(ns + [n]) == Sum(ns) + n
  {
    assert (ns + [n])[..|ns|] == ns;
  }

  /** Adding an element at the end adds to the total over `ks` once for each time its key is listed in `ks`. */
  lemma {:induction false} SumCountsSnoc<T, U>(f: T -> U, xs: seq<T>, x: T, ks: seq<U>)
    ensures Sum(Counts(f, xs + [x], ks)) == Sum(Counts(f, xs, ks)) + Occurrences(ks, f(x))
  {
    if ks != [] {
      var init := ks[..|ks| - 1];
      var last := ks[|ks| - 1];
      SumCountsSnoc(f, xs, x, init);
      CountKeySnoc(f, xs, x, last);
      SumSnoc(Counts(f, xs, init), CountKey(f, xs, last));
      SumSnoc(Counts(f, xs + [x], init), CountKey(f, xs + [x], last));
    }
  }

  /** With no elements every count is zero. */
  lemma {:induction false} SumCountsEmpty<T, U>(f: T -> U, ks: seq<U>)
    ensures Sum(Counts(f, [], ks)) == 0
  {
    if ks != [] {
      SumCountsEmpty(f, ks[..|ks| - 1]);
      assert Counts(f, [], ks)[..|ks| - 1] == Counts(f, [], ks[..|ks| - 1]);
    }
  }

  /** The counts over the distinct keys add up to the number of elements: every element is counted once. */
  lemma {:induction false} TallyCoversAll<T, U>(f: T -> U, xs: seq<T>)
    ensures Sum(Counts(f, xs, Distinct(Map(f, xs)))) == |xs|
  {
    if xs == [] {
      SumCountsEmpty(f, Distinct(Map(f, xs)));
    } else {
      var init := xs[..|xs| - 1];
      var x := xs[|xs| - 1];
      assert xs == init + [x];
      TallyCoversAll(f, init);
      var keys := Map(f, init);
      var d := Distinct(keys);
      MapSnoc(f, init, x);
      DistinctSnoc(keys, f(x));
      DistinctMembers(keys);
      DistinctOnce(keys, f(x));
      SumCountsSnoc(f, init, x, d);
      assert Map(f, xs) == keys + [f(x)];
      assert Sum(Counts(f, xs, d)) == |init| + Occurrences(d, f(x));
      if f(x) !in d {
        CountsSnoc(f, xs, d, f(x));
        SumSnoc(Counts(f, xs, d), CountKey(f, xs, f(x)));
        CountKeyAbsent(f, init, f(x));
        CountKeySnoc(f, init, x, f(x));
        assert Occurrences(d, f(x)) == 0;
        assert Distinct(Map(f, xs)) == d + [f(x)];
        assert CountKey(f, xs, f(x)) == 1;
      } else {
        assert Occurrences(d, f(x)) == 1;
        assert Distinct(Map(f, xs)) == d;
      }
    }
  }
}
