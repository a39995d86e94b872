/**
 * Go's string order (`a < b` on strings, byte-wise lexicographic; on
 * characters this is the same order, since UTF-8 preserves code-point order)
 * and the ascending, duplicate-free key lists that the plugin's list
 * operations return after `sort.Slice` by ID.
 */
module Sorting {

  /** Go's `a < b` on strings. */
  predicate Less(a: string, b: string) {
    if a == [] then b != []
    else b != [] && (a[0] < b[0] || (a[0] == b[0] && Less(a[1..], b[1..])))
  }

  lemma {:induction false} LessIrreflexive(a: string)
    ensures !Less(a, a)
  {
    if a != [] {
      LessIrreflexive(a[1..]);
    }
  }

  lemma {:induction false} LessTransitive(a: string, b: string, c: string)
    requires Less(a, b) && Less(b, c)
    ensures Less(a, c)
  {
    if a != [] && b != [] && c != [] && a[0] == b[0] == c[0] {
      LessTransitive(a[1..], b[1..], c[1..]);
    }
  }

  /** Any two different strings are ordered one way or the other. */
  lemma {:induction false} LessTotal(a: string, b: string)
    requires a != b
    ensures Less(a, b) || Less(b, a)
  {
    if a != [] && b != [] && a[0] == b[0] {
      assert a == [a[0]] + a[1..] && b == [b[0]] + b[1..];
      LessTotal(a[1..], b[1..]);
    }
  }

  /** Strictly ascending, hence free of duplicates. */
  predicate StrictlySorted(xs: seq<string>) {
    forall i, j :: 0 <= i < j < |xs| ==> Less(xs[i], xs[j])
  }

  /** Puts `k` into its place in a strictly ascending list that does not hold it. */
  function Insert(xs: seq<string>, k: string): (r: seq<string>)
    requires StrictlySorted(xs) && k !in xs
    ensures StrictlySorted(r)
    ensures |r| == |xs| + 1
    ensures forall x :: x in r <==> x in xs || x == k
  {
    if xs == [] then [k]
    else if Less(k, xs[0]) then
      assert StrictlySorted([k] + xs) by {
        forall j | 0 <= j < |xs| ensures Less(k, xs[j]) {
          if j > 0 { LessTransitive(k, xs[0], xs[j]); }
        }
      }
      [k] + xs
    else
      LessTotal(k, xs[0]);
      var tail := Insert(xs[1..], k);
      assert forall x :: x in tail ==> Less(xs[0], x) by {
        forall x | x in tail ensures Less(xs[0], x) {
          if x != k {
            var j :| 0 <= j < |xs[1..]| && xs[1..][j] == x;
            assert xs[j + 1] == x;
          }
        }
      }
      [xs[0]] + tail
  }

  /** A step of SortedUnique: a non-empty list holds its first element. */
  lemma HeadIn(xs: seq<string>)
    ensures xs != [] ==> xs[0] in xs
  {
  }

  /** Two strictly ascending lists with the same elements are the same list: the order is determined. */
  lemma {:induction false} SortedUnique(xs: seq<string>, ys: seq<string>)
    requires StrictlySorted(xs) && StrictlySorted(ys)
    requires forall x :: x in xs <==> x in ys
    ensures xs == ys
  {
    if xs != [] && ys != [] {
      assert xs[0] in ys && ys[0] in xs;
      if xs[0] != ys[0] {
        var i :| 0 <= i < |ys| && ys[i] == xs[0];
        var j :| 0 <= j < |xs| && xs[j] == ys[0];
        assert Less(ys[0], xs[0]);
        assert Less(xs[0], ys[0]);
        LessTransitive(xs[0], ys[0], xs[0]);
        LessIrreflexive(xs[0]);
      }
      forall x ensures x in xs[1..] <==> x in ys[1..] {
        if x in xs[1..] {
          var i :| 0 <= i < |xs[1..]| && xs[1..][i] == x;
          assert xs[i + 1] == x;
          assert x in ys;
          if x == ys[0] {
            assert Less(xs[0], xs[i + 1]);
            LessIrreflexive(x);
          }
          var j :| 0 <= j < |ys| && ys[j] == x;
          assert j > 0;
          assert ys[1..][j - 1] == x;
        }
        if x in ys[1..] {
          var i :| 0 <= i < |ys[1..]| && ys[1..][i] == x;
          assert ys[i + 1] == x;
          assert x in xs;
          if x == xs[0] {
            assert Less(ys[0], ys[i + 1]);
            LessIrreflexive(x);
          }
          var j :| 0 <= j < |xs| && xs[j] == x;
          assert j > 0;
          assert xs[1..][j - 1] == x;
        }
      }
      SortedUnique(xs[1..], ys[1..]);
    } else {
      HeadIn(xs);
      HeadIn(ys);
    }
  }

  /** The keys of a finite set in ascending order (the ordering step of `sort.Slice` by ID). */
  method SortedKeys(keys: set<string>) returns (xs: seq<string>)
    ensures StrictlySorted(xs)
    ensures forall k :: k in xs <==> k in keys
  {
    xs := [];
    var rest := keys;
    while rest != {}
      invariant StrictlySorted(xs)
      invariant rest <= keys
      invariant forall k :: k in xs <==> k in keys - rest
      decreases rest
    {
      var k :| k in rest;
      xs := Insert(xs, k);
      rest := rest - {k};
    }
  }
}
