/**
 String helpers shared by the other modules.

 A string is a sequence of Unicode scalars. Go compares strings by their UTF-8
 bytes, which orders them the same way; SQLite's default collation does too.
 Sorting stands for sort.Slice, which is not stable.
 */
module Text {

  /** Position of the first c in s, or -1 (strings.IndexByte). */
  function IndexOf(s: string, c: char): (i: int)
    ensures -1 <= i < |s|
    ensures i >= 0 ==> s[i] == c && c !in s[..i]
    ensures i < 0 ==> c !in s
  {
    if s == [] then -1
    else if s[0] == c then 0
    else
      var j := IndexOf(s[1..], c);
      assert j >= 0 ==> s[..j + 1] == [s[0]] + s[1..][..j];
      if j < 0 then -1 else j + 1
  }

  /** Position of the last c in s, or -1 (strings.LastIndexByte). */
  function LastIndexOf(s: string, c: char): (i: int)
    ensures -1 <= i < |s|
    ensures i >= 0 ==> s[i] == c && c !in s[i + 1..]
    ensures i < 0 ==> c !in s
  {
    if s == [] then -1
    else if s[|s| - 1] == c then |s| - 1
    else
      var j := LastIndexOf(s[..|s| - 1], c);
      assert s == s[..|s| - 1] + [s[|s| - 1]];
      assert j >= 0 ==> s[j + 1..] == s[..|s| - 1][j + 1..] + [s[|s| - 1]];
      j
  }

  predicate HasPrefix(s: string, p: string) { p <= s }

  predicate HasSuffix(s: string, p: string) { |p| <= |s| && s[|s| - |p|..] == p }

  function TrimSuffix(s: string, p: string): (r: string)
    ensures r <= s
  {
    if HasSuffix(s, p) then s[..|s| - |p|] else s
  }

  /** Strict lexicographic order, Go's < on strings. */
  predicate Before(a: string, b: string) {
    b != [] && (a == [] || a[0] < b[0] || (a[0] == b[0] && Before(a[1..], b[1..])))
  }

  predicate AtMost(a: string, b: string) { !Before(b, a) }

  lemma {:induction false} BeforeTotal(a: string, b: string)
    ensures a != b ==> (Before(a, b) <==> !Before(b, a))
    ensures !Before(a, a)
  {
    if a != [] && b != [] {
      BeforeTotal(a[1..], b[1..]);
      assert a == [a[0]] + a[1..] && b == [b[0]] + b[1..];
    }
    if a != [] && b == [] {
      BeforeTotal(a[1..], b);
    }
  }

  lemma {:induction false} BeforeTransitive(a: string, b: string, c: string)
    requires Before(a, b) && Before(b, c)
    ensures Before(a, c)
  {
    if a != [] && a[0] == b[0] && b[0] == c[0] {
      BeforeTransitive(a[1..], b[1..], c[1..]);
    }
  }

  lemma AtMostTransitive(a: string, b: string, c: string)
    requires AtMost(a, b) && AtMost(b, c)
    ensures AtMost(a, c)
  {
    BeforeTotal(a, b);
    BeforeTotal(b, c);
    BeforeTotal(a, c);
    if Before(a, b) && Before(b, c) {
      BeforeTransitive(a, b, c);
    }
  }

  predicate SortedBy<T>(xs: seq<T>, key: T -> string) {
    forall i, j :: 0 <= i < j < |xs| ==> AtMost(key(xs[i]), key(xs[j]))
  }

  /**
   Stands for Go's sort.Slice ordered by a string key: the result is a
   permutation in key order. sort.Slice is not stable, so no more is promised.
   */
  method SortByKey<T>(xs: seq<T>, key: T -> string) returns (ys: seq<T>)
    ensures multiset(ys) == multiset(xs)
    ensures SortedBy(ys, key)
  {
    ys := [];
    for n := 0 to |xs|
      invariant multiset(ys) == multiset(xs[..n])
      invariant SortedBy(ys, key)
    {
      var at := |ys|;
      while at > 0 && Before(key(xs[n]), key(ys[at - 1]))
        invariant 0 <= at <= |ys|
        invariant forall k :: at <= k < |ys| ==> Before(key(xs[n]), key(ys[k]))
      {
        at := at - 1;
      }
      InsertKeepsSorted(ys, xs[n], at, key);
      InsertAddsOne(xs, n, ys, at);
      ys := ys[..at] + [xs[n]] + ys[at..];
    }
    assert xs[..|xs|] == xs;
  }

  lemma InsertAddsOne<T>(xs: seq<T>, n: nat, ys: seq<T>, at: nat)
    requires n < |xs| && at <= |ys| && multiset(ys) == multiset(xs[..n])
    ensures multiset(ys[..at] + [xs[n]] + ys[at..]) == multiset(xs[..n + 1])
  {
    assert xs[..n + 1] == xs[..n] + [xs[n]];
    assert ys == ys[..at] + ys[at..];
  }

  lemma InsertKeepsSorted<T>(ys: seq<T>, x: T, at: nat, key: T -> string)
    requires SortedBy(ys, key) && at <= |ys|
    requires forall k :: at <= k < |ys| ==> Before(key(x), key(ys[k]))
    requires at > 0 ==> AtMost(key(ys[at - 1]), key(x))
    ensures SortedBy(ys[..at] + [x] + ys[at..], key)
  {
    forall k | 0 <= k < at
      ensures AtMost(key(ys[k]), key(x))
    {
      if k < at - 1 {
        AtMostTransitive(key(ys[k]), key(ys[at - 1]), key(x));
      }
    }
    forall k | at <= k < |ys|
      ensures AtMost(key(x), key(ys[k]))
    {
      BeforeTotal(key(x), key(ys[k]));
    }
    var zs := ys[..at] + [x] + ys[at..];
    forall i, j | 0 <= i < j < |zs|
      ensures AtMost(key(zs[i]), key(zs[j]))
    {
    }
  }

  /** No element occurs twice. */
  ghost predicate Distinct<T(!new)>(xs: seq<T>) {
    forall i, j :: 0 <= i < j < |xs| ==> xs[i] != xs[j]
  }

  ghost function Elements<T>(xs: seq<T>): set<T> {
    set x | x in xs
  }

  lemma {:induction false} DistinctSize<T(!new)>(xs: seq<T>)
    requires Distinct(xs)
    ensures |Elements(xs)| == |xs|
  {
    if xs != [] {
      var rest := xs[..|xs| - 1];
      DistinctSize(rest);
      assert xs == rest + [xs[|xs| - 1]];
      assert Elements(xs) == Elements(rest) + {xs[|xs| - 1]};
    }
  }
}
