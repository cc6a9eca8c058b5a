/**
  Selecting rows of a table: the rows that meet a condition, in insertion order.
 */
module Queries {
  import opened Bytes

  function Filter<T(!new)>(f: T -> bool, s: seq<T>): (r: seq<T>)
    ensures forall x :: x in r <==> x in s && f(x)
  {
    if s == [] then []
    else
      assert s == s[..|s| - 1] + [s[|s| - 1]];
      Filter(f, s[..|s| - 1]) + if f(s[|s| - 1]) then [s[|s| - 1]] else []
  }

  lemma {:induction false} FilterConcat<T(!new)>(f: T -> bool, a: seq<T>, b: seq<T>)
    ensures Filter(f, a + b) == Filter(f, a) + Filter(f, b)
  {
    if b == [] {
      assert a + b == a;
    } else {
      var c, b' := a + b, b[..|b| - 1];
      assert c[..|c| - 1] == a + b' && c[|c| - 1] == b[|b| - 1];
      FilterConcat(f, a, b');
      var last := if f(b[|b| - 1]) then [b[|b| - 1]] else [];
      assert (Filter(f, a) + Filter(f, b')) + last == Filter(f, a) + (Filter(f, b') + last);
    }
  }

  lemma {:induction false} FilterAll<T(!new)>(f: T -> bool, s: seq<T>)
    ensures (forall x :: x in s ==> f(x)) ==> Filter(f, s) == s
    ensures (forall x :: x in s ==> !f(x)) ==> Filter(f, s) == []
  {
    if s != [] {
      assert s == s[..|s| - 1] + [s[|s| - 1]];
      FilterAll(f, s[..|s| - 1]);
    }
  }

  lemma {:induction false} FilterAgree<T(!new)>(f: T -> bool, g: T -> bool, s: seq<T>)
    requires forall x :: x in s ==> f(x) == g(x)
    ensures Filter(f, s) == Filter(g, s)
  {
    if s != [] {
      assert s == s[..|s| - 1] + [s[|s| - 1]];
      FilterAgree(f, g, s[..|s| - 1]);
    }
  }

  /** How often a row is selected: as often as it is in the table, or never. */
  lemma {:induction false} FilterCount<T(!new)>(f: T -> bool, s: seq<T>, x: T)
    ensures multiset(Filter(f, s))[x] == if f(x) then multiset(s)[x] else 0
  {
    if s != [] {
      assert s == s[..|s| - 1] + [s[|s| - 1]];
      FilterCount(f, s[..|s| - 1], x);
    }
  }

  /** A condition and its opposite split a table. */
  lemma FilterSplits<T(!new)>(f: T -> bool, g: T -> bool, s: seq<T>)
    requires forall x :: g(x) <==> !f(x)
    ensures multiset(s) == multiset(Filter(f, s)) + multiset(Filter(g, s))
    ensures |s| == |Filter(f, s)| + |Filter(g, s)|
  {
    forall x ensures multiset(s)[x] == multiset(Filter(f, s))[x] + multiset(Filter(g, s))[x] {
      FilterCount(f, s, x);
      FilterCount(g, s, x);
    }
    assert multiset(s) == multiset(Filter(f, s)) + multiset(Filter(g, s));
    assert |multiset(s)| == |s|;
  }

  lemma {:induction false} FilterTwice<T(!new)>(f: T -> bool, g: T -> bool, both: T -> bool, s: seq<T>)
    requires forall x :: both(x) <==> f(x) && g(x)
    ensures Filter(f, Filter(g, s)) == Filter(both, s)
  {
    if s != [] {
      var init, last := s[..|s| - 1], s[|s| - 1];
      FilterTwice(f, g, both, init);
      FilterConcat(f, Filter(g, init), if g(last) then [last] else []);
      FilterAll(f, [last]);
    }
  }

  /** A query scanned into one row keeps the last match. */
  function LastMatch<T(!new)>(f: T -> bool, s: seq<T>): (r: Option<T>)
    ensures r.Some? ==> r.value in s && f(r.value)
    ensures r.None? ==> forall x :: x in s ==> !f(x)
  {
    if s == [] then None
    else
      assert s == s[..|s| - 1] + [s[|s| - 1]];
      if f(s[|s| - 1]) then Some(s[|s| - 1]) else LastMatch(f, s[..|s| - 1])
  }

  /** It is the last of the rows that match, and there is one if and only if any row matches. */
  lemma {:induction false} LastMatchIsLast<T(!new)>(f: T -> bool, s: seq<T>)
    ensures LastMatch(f, s) == if Filter(f, s) == [] then None else Some(Filter(f, s)[|Filter(f, s)| - 1])
  {
    if s != [] { LastMatchIsLast(f, s[..|s| - 1]); }
  }

  /** Filtering keeps the order: where a row matches, the rows selected before it are those matching before it. */
  lemma {:induction false} FilterInOrder<T(!new)>(f: T -> bool, s: seq<T>, i: nat)
    requires i < |s| && f(s[i])
    ensures |Filter(f, s[..i])| < |Filter(f, s)| && Filter(f, s)[|Filter(f, s[..i])|] == s[i]
    ensures Filter(f, s[..i]) <= Filter(f, s)
  {
    var n := |s| - 1;
    if i < n {
      FilterInOrder(f, s[..n], i);
      assert s[..n][..i] == s[..i];
    }
  }

  /** The first row a query finds. */
  function FirstMatch<T(!new)>(f: T -> bool, s: seq<T>): (r: Option<nat>)
    ensures r.Some? ==> r.value < |s| && f(s[r.value]) && forall j :: 0 <= j < r.value ==> !f(s[j])
    ensures r.None? ==> forall j :: 0 <= j < |s| ==> !f(s[j])
  {
    if s == [] then None
    else
      var r := FirstMatch(f, s[..|s| - 1]);
      if r.Some? then r else if f(s[|s| - 1]) then Some(|s| - 1) else None
  }

  lemma FilterInterval<T(!new)>(f: T -> bool, s: seq<T>, a: nat, b: nat)
    requires a <= b <= |s| && forall i :: 0 <= i < |s| ==> (f(s[i]) <==> a <= i < b)
    ensures Filter(f, s) == s[a..b]
  {
    hide Filter;
    SliceMatches(f, s, 0, a, false);
    SliceMatches(f, s, a, b, true);
    SliceMatches(f, s, b, |s|, false);
    FilterMiddle(f, s[0..a], s[a..b], s[b..|s|]);
    ThreeSlices(s, a, b);
  }

  lemma ThreeSlices<T>(s: seq<T>, a: nat, b: nat)
    requires a <= b <= |s|
    ensures s == (s[0..a] + s[a..b]) + s[b..|s|]
  {
  }

  lemma SliceMatches<T(!new)>(f: T -> bool, s: seq<T>, lo: nat, hi: nat, v: bool)
    requires lo <= hi <= |s| && forall i :: lo <= i < hi ==> f(s[i]) == v
    ensures forall x :: x in s[lo..hi] ==> f(x) == v
  {
  }

  lemma FilterMiddle<T(!new)>(f: T -> bool, a: seq<T>, b: seq<T>, c: seq<T>)
    requires (forall x :: x in a ==> !f(x)) && forall x :: x in c ==> !f(x)
    ensures Filter(f, (a + b) + c) == Filter(f, b)
    ensures (forall x :: x in b ==> f(x)) ==> Filter(f, (a + b) + c) == b
  {
    hide Filter;
    FilterConcat(f, a + b, c);
    FilterConcat(f, a, b);
    FilterAll(f, a);
    FilterAll(f, c);
    FilterAll(f, b);
    assert ([] + Filter(f, b)) + [] == Filter(f, b);
  }
}
