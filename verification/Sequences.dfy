/** Facts about sequences that hold for any element type. */
module Sequences {
  import opened Options
  import opened Text

  function FilterMap<T, U>(f: T -> Option<U>, s: seq<T>): (r: seq<U>)
    ensures |r| <= |s|
  {
    if s == [] then []
    else
      var rest := FilterMap(f, s[..|s| - 1]);
      match f(s[|s| - 1])
      case Some(u) => rest + [u]
      case None => rest
  }

  lemma {:induction false} FilterMapAppend<T, U>(f: T -> Option<U>, a: seq<T>, b: seq<T>)
    ensures FilterMap(f, a + b) == FilterMap(f, a) + FilterMap(f, b)
  {
    if b == [] {
      assert a + b == a;
    } else {
      var k := |b| - 1;
      assert (a + b)[..|a + b| - 1] == a + b[..k];
      FilterMapAppend(f, a, b[..k]);
    }
  }

  lemma FilterMapSingle<T, U>(f: T -> Option<U>, a: T)
    ensures FilterMap(f, [a]) == if f(a).Some? then [f(a).value] else []
  {
    assert [a][..0] == [];
  }

  function OptionBag<U>(o: Option<U>): multiset<U> {
    match o
    case Some(u) => multiset{u}
    case None => multiset{}
  }

  /** The results of a filter as a bag, one element taken out at a time. */
  lemma FilterMapInsert<T, U>(f: T -> Option<U>, a: seq<T>, x: T, b: seq<T>)
    ensures multiset(FilterMap(f, a + [x] + b)) == multiset(FilterMap(f, a + b)) + OptionBag(f(x))
  {
    FilterMapAppend(f, a + [x], b);
    FilterMapAppend(f, a, [x]);
    FilterMapAppend(f, a, b);
    FilterMapOne(f, x);
    BagOfThree(FilterMap(f, a), FilterMap(f, [x]), FilterMap(f, b));
  }

  lemma FilterMapOne<T, U>(f: T -> Option<U>, x: T)
    ensures multiset(FilterMap(f, [x])) == OptionBag(f(x))
  {
    FilterMapSingle(f, x);
  }

  lemma BagOfThree<U>(a: seq<U>, x: seq<U>, b: seq<U>)
    ensures multiset(a + x + b) == multiset(a + b) + multiset(x)
  {
  }

  lemma Locate<T>(b: seq<T>, x: T) returns (pre: seq<T>, post: seq<T>)
    requires x in multiset(b)
    ensures b == pre + [x] + post
  {
    var j :| 0 <= j < |b| && b[j] == x;
    pre, post := b[..j], b[j + 1..];
  }

  lemma BagWithout<T>(pre: seq<T>, x: T, post: seq<T>, bag: multiset<T>)
    requires multiset(pre + [x] + post) == bag + multiset{x}
    ensures multiset(pre + post) == bag
  {
    BagOfThree(pre, [x], post);
    assert multiset(pre + post) == (bag + multiset{x}) - multiset{x};
  }

  /** Reordering the input only reorders the output. */
  lemma {:induction false} FilterMapPermutes<T, U>(f: T -> Option<U>, a: seq<T>, b: seq<T>)
    requires multiset(a) == multiset(b)
    ensures multiset(FilterMap(f, a)) == multiset(FilterMap(f, b))
  {
    if a == [] {
      BagEmpty(b);
    } else {
      var init, x := a[..|a| - 1], a[|a| - 1];
      assert a == init + [x];
      assert x in multiset(a);
      var pre, post := Locate(b, x);
      BagWithout(pre, x, post, multiset(init));
      FilterMapPermutes(f, init, pre + post);
      FilterMapAppend(f, init, [x]);
      FilterMapOne(f, x);
      FilterMapInsert(f, pre, x, post);
    }
  }

  lemma BagEmpty<T>(b: seq<T>)
    requires multiset(b) == multiset{}
    ensures b == []
  {
    assert |multiset(b)| == |b|;
  }

  lemma BagSize<T>(a: seq<T>, b: seq<T>)
    requires multiset(a) == multiset(b)
    ensures |a| == |b|
    ensures forall x :: x in a <==> x in b
  {
    assert |multiset(a)| == |a| && |multiset(b)| == |b|;
    forall x ensures x in a <==> x in b {
      assert x in a <==> x in multiset(a);
      assert x in b <==> x in multiset(b);
    }
  }

  lemma {:induction false} FilterMapSame<T, U>(f: T -> Option<U>, g: T -> Option<U>, s: seq<T>)
    requires forall x :: x in s ==> f(x) == g(x)
    ensures FilterMap(f, s) == FilterMap(g, s)
  {
    if s != [] {
      var k := |s| - 1;
      assert s[k] in s;
      FilterMapSame(f, g, s[..k]);
    }
  }

  function Then<T, U, V>(f: T -> Option<U>, g: U -> Option<V>): T -> Option<V> {
    x => match f(x) case Some(u) => g(u) case None => None
  }

  lemma {:induction false} FilterMapThen<T, U, V>(f: T -> Option<U>, g: U -> Option<V>, s: seq<T>)
    ensures FilterMap(g, FilterMap(f, s)) == FilterMap(Then(f, g), s)
  {
    if s != [] {
      var k := |s| - 1;
      FilterMapThen(f, g, s[..k]);
      match f(s[k])
      case None =>
      case Some(u) =>
        FilterMapAppend(g, FilterMap(f, s[..k]), [u]);
        FilterMapSingle(g, u);
    }
  }

  lemma {:induction false} FilterMapMember<T, U>(f: T -> Option<U>, s: seq<T>, u: U)
    ensures u in FilterMap(f, s) <==> exists x :: x in s && f(x) == Some(u)
  {
    if s != [] {
      var k := |s| - 1;
      FilterMapMember(f, s[..k], u);
      assert forall x :: x in s <==> x in s[..k] || x == s[k];
    }
  }

  // ---------------------------------------------------------------------------
  // Induction from the end, for a property that each further element keeps.

  lemma {:induction false} SnocInduction<T(!new)>(keeps: seq<T> -> bool, s: seq<T>)
    requires keeps([]) && forall before, x :: keeps(before) ==> keeps(before + [x])
    ensures keeps(s)
  {
    if s != [] {
      SnocInduction(keeps, s[..|s| - 1]);
      assert s == s[..|s| - 1] + [s[|s| - 1]];
    }
  }

  // ---------------------------------------------------------------------------
  // A stable sort.

  function InsertBy<T>(less: (T, T) -> bool, e: T, s: seq<T>): seq<T> {
    if s != [] && less(s[0], e) then [s[0]] + InsertBy(less, e, s[1..]) else [e] + s
  }

  /** `sort_by`: the order a stable comparison sort leaves behind. */
  function SortBy<T>(less: (T, T) -> bool, s: seq<T>): seq<T> {
    if s == [] then [] else InsertBy(less, s[0], SortBy(less, s[1..]))
  }

  predicate SortedBy<T(!new)>(less: (T, T) -> bool, s: seq<T>) {
    forall i, j :: 0 <= i < j < |s| ==> !less(s[j], s[i])
  }

  ghost predicate WeakOrder<T(!new)>(less: (T, T) -> bool) {
    && (forall x, y :: less(x, y) ==> !less(y, x))
    && (forall x, y, z :: less(x, z) ==> less(x, y) || less(y, z))
  }

  lemma {:induction false} InsertByPermutes<T>(less: (T, T) -> bool, e: T, s: seq<T>)
    ensures multiset(InsertBy(less, e, s)) == multiset(s) + multiset{e}
  {
    if s != [] && less(s[0], e) {
      InsertByPermutes(less, e, s[1..]);
      assert s == [s[0]] + s[1..];
    }
  }

  lemma {:induction false} SortByPermutes<T>(less: (T, T) -> bool, s: seq<T>)
    ensures multiset(SortBy(less, s)) == multiset(s)
  {
    if s != [] {
      SortByPermutes(less, s[1..]);
      InsertByPermutes(less, s[0], SortBy(less, s[1..]));
      assert s == [s[0]] + s[1..];
    }
  }

  lemma FrontSorted<T(!new)>(less: (T, T) -> bool, e: T, s: seq<T>)
    requires SortedBy(less, s) && forall x :: x in s ==> !less(x, e)
    ensures SortedBy(less, [e] + s)
  {
    var r := [e] + s;
    forall i, j | 0 <= i < j < |r| ensures !less(r[j], r[i]) {
      assert r[j] == s[j - 1] && s[j - 1] in s;
      if i > 0 {
        assert r[i] == s[i - 1];
      }
    }
  }

  lemma {:induction false} InsertBySorted<T(!new)>(less: (T, T) -> bool, e: T, s: seq<T>)
    requires WeakOrder(less) && SortedBy(less, s)
    ensures SortedBy(less, InsertBy(less, e, s))
  {
    if s != [] && less(s[0], e) {
      var rest := InsertBy(less, e, s[1..]);
      InsertBySorted(less, e, s[1..]);
      InsertByPermutes(less, e, s[1..]);
      forall x | x in rest ensures !less(x, s[0]) {
        assert x in multiset(rest);
      }
      FrontSorted(less, s[0], rest);
    } else {
      forall x | x in s ensures !less(x, e) {
        var j :| 0 <= j < |s| && s[j] == x;
        var first := s[0];
        assert less(x, e) ==> less(x, first) || less(first, e);
      }
      FrontSorted(less, e, s);
    }
  }

  lemma {:induction false} SortBySorted<T(!new)>(less: (T, T) -> bool, s: seq<T>)
    requires WeakOrder(less)
    ensures SortedBy(less, SortBy(less, s))
  {
    if s != [] {
      SortBySorted(less, s[1..]);
      InsertBySorted(less, s[0], SortBy(less, s[1..]));
    }
  }

  lemma {:induction false} FilterMapCount<T, U, V>(f: T -> Option<U>, g: T -> Option<V>, s: seq<T>)
    requires forall x :: x in s ==> (f(x).Some? <==> g(x).Some?)
    ensures |FilterMap(f, s)| == |FilterMap(g, s)|
  {
    if s != [] {
      var k := |s| - 1;
      assert s[k] in s;
      FilterMapCount(f, g, s[..k]);
    }
  }

  // ---------------------------------------------------------------------------
  // Sequences without repeats.

  predicate Distinct<T(==)>(s: seq<T>) {
    forall i, j :: 0 <= i < j < |s| ==> s[i] != s[j]
  }

  lemma {:induction false} DistinctOnce<T>(s: seq<T>, x: T)
    requires Distinct(s)
    ensures multiset(s)[x] <= 1
  {
    if s != [] {
      var k := |s| - 1;
      DistinctOnce(s[..k], x);
      assert s == s[..k] + [s[k]];
      if s[k] == x {
        assert x !in s[..k];
        assert x !in multiset(s[..k]);
      }
    }
  }

  lemma RepeatedTwice<T>(s: seq<T>, i: nat, j: nat)
    requires i < j < |s| && s[i] == s[j]
    ensures multiset(s)[s[j]] >= 2
  {
    assert s == s[..j] + [s[j]] + s[j + 1..];
    assert s[..j][i] == s[j];
    assert s[j] in multiset(s[..j]);
  }

  lemma DistinctPermutes<T>(a: seq<T>, b: seq<T>)
    requires multiset(a) == multiset(b) && Distinct(a)
    ensures Distinct(b)
  {
    forall i, j | 0 <= i < j < |b| ensures b[i] != b[j] {
      if b[i] == b[j] {
        RepeatedTwice(b, i, j);
        DistinctOnce(a, b[j]);
      }
    }
  }

  // ---------------------------------------------------------------------------
  // Maximal runs.

  /** Where the run of `p` elements that starts at `i` ends. */
  function RunEnd<T>(p: T -> bool, s: seq<T>, i: nat): (j: nat)
    requires i <= |s|
    ensures i <= j <= |s|
    ensures forall k :: i <= k < j ==> p(s[k])
    ensures j < |s| ==> !p(s[j])
    decreases |s| - i
  {
    if i < |s| && p(s[i]) then RunEnd(p, s, i + 1) else i
  }

  lemma RunEndIs<T>(p: T -> bool, s: seq<T>, i: nat, j: nat)
    requires i <= j <= |s| && (forall k :: i <= k < j ==> p(s[k])) && (j < |s| ==> !p(s[j]))
    ensures RunEnd(p, s, i) == j
  {
    var e := RunEnd(p, s, i);
    assert !(i <= e < j) && !(i <= j < e);
  }
}
