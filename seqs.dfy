/** Generic facts about sequences used by the route-ordering model. */
module Seqs {

  /** `xs` is obtained from `ys` by deleting elements, the rest keeping their order. */
  ghost predicate IsSubsequence<T>(xs: seq<T>, ys: seq<T>)
    decreases |ys|
  {
    if xs == [] then true
    else if ys == [] then false
    else (xs[|xs| - 1] == ys[|ys| - 1] && IsSubsequence(xs[..|xs| - 1], ys[..|ys| - 1]))
         || IsSubsequence(xs, ys[..|ys| - 1])
  }

  /** No element occurs twice. */
  predicate Distinct<T(==)>(s: seq<T>)
  {
    forall i, j :: 0 <= i < j < |s| ==> s[i] != s[j]
  }

  /** The elements of `s` in the opposite order. */
  function Reverse<T>(s: seq<T>): seq<T>
    decreases |s|
  {
    if s == [] then [] else [s[|s| - 1]] + Reverse(s[..|s| - 1])
  }

  /** `LinkedHashSet.add`: appends `x` unless it is already present. */
  function Insert<T(==)>(acc: seq<T>, x: T): seq<T>
  {
    if x in acc then acc else acc + [x]
  }

  /** Adds every element of `xs`, in order, to the insertion-ordered set `acc`. */
  function InsertAll<T(==)>(acc: seq<T>, xs: seq<T>): seq<T>
    decreases |xs|
  {
    if xs == [] then acc else Insert(InsertAll(acc, xs[..|xs| - 1]), xs[|xs| - 1])
  }

  lemma {:induction false} SubsequenceMembers<T>(xs: seq<T>, ys: seq<T>)
    requires IsSubsequence(xs, ys)
    ensures forall x :: x in xs ==> x in ys
    decreases |ys|
  {
    if xs != [] && ys != [] {
      var ys' := ys[..|ys| - 1];
      if xs[|xs| - 1] == ys[|ys| - 1] && IsSubsequence(xs[..|xs| - 1], ys') {
        SubsequenceMembers(xs[..|xs| - 1], ys');
        assert xs == xs[..|xs| - 1] + [xs[|xs| - 1]];
      } else {
        SubsequenceMembers(xs, ys');
      }
    }
  }

  /** The insertion-ordered set only grows at its end, with elements of `xs` it did not hold. */
  lemma {:induction false} InsertAllExtends<T>(acc: seq<T>, xs: seq<T>)
    ensures |acc| <= |InsertAll(acc, xs)|
    ensures InsertAll(acc, xs)[..|acc|] == acc
    ensures forall k :: |acc| <= k < |InsertAll(acc, xs)| ==> InsertAll(acc, xs)[k] in xs && InsertAll(acc, xs)[k] !in acc
    ensures forall x :: x in InsertAll(acc, xs) <==> x in acc || x in xs
    decreases |xs|
  {
    if xs != [] {
      var xs' := xs[..|xs| - 1];
      var x := xs[|xs| - 1];
      InsertAllExtends(acc, xs');
      assert xs == xs' + [x];
      var p := InsertAll(acc, xs');
      assert forall y :: y in acc ==> y in p by {
        forall y | y in acc ensures y in p {
          var k :| 0 <= k < |acc| && acc[k] == y;
          assert p[..|acc|][k] == y;
        }
      }
    }
  }

  /** The position of the first occurrence of `x` in `s`. */
  function IndexOf<T(==)>(s: seq<T>, x: T): (i: nat)
    requires x in s
    ensures i < |s| && s[i] == x
    ensures forall j :: 0 <= j < i ==> s[j] != x
    decreases |s|
  {
    var s' := s[..|s| - 1];
    if x in s' then IndexOf(s', x) else |s| - 1
  }

  /** Appending an element does not move the first occurrence of an element already present. */
  lemma IndexOfSnoc<T>(s: seq<T>, y: T, x: T)
    requires x in s
    ensures IndexOf(s + [y], x) == IndexOf(s, x)
  {
    var i := IndexOf(s, x);
    assert (s + [y])[i] == x;
  }

  /** An appended element that is new sits at the end. */
  lemma IndexOfLast<T>(s: seq<T>, y: T)
    requires y !in s
    ensures IndexOf(s + [y], y) == |s|
  {
  }

  /**
    The elements the insertion-ordered set gains follow the order of their first occurrence
    in `xs`.
   */
  lemma {:induction false} InsertAllOrder<T>(acc: seq<T>, xs: seq<T>)
    ensures forall k1, k2 {:trigger InsertAll(acc, xs)[k1], InsertAll(acc, xs)[k2]} ::
      |acc| <= k1 < k2 < |InsertAll(acc, xs)| ==>
        && InsertAll(acc, xs)[k1] in xs && InsertAll(acc, xs)[k2] in xs
        && IndexOf(xs, InsertAll(acc, xs)[k1]) < IndexOf(xs, InsertAll(acc, xs)[k2])
    decreases |xs|
  {
    InsertAllExtends(acc, xs);
    if xs != [] {
      var xs' := xs[..|xs| - 1];
      var x := xs[|xs| - 1];
      assert xs == xs' + [x];
      InsertAllOrder(acc, xs');
      InsertAllExtends(acc, xs');
      var p := InsertAll(acc, xs');
      var m := InsertAll(acc, xs);
      forall k1, k2 | |acc| <= k1 < k2 < |m|
        ensures m[k1] in xs && m[k2] in xs && IndexOf(xs, m[k1]) < IndexOf(xs, m[k2])
      {
        assert m[k1] == p[k1] && m[k1] in xs';
        IndexOfSnoc(xs', x, m[k1]);
        if k2 < |p| {
          assert m[k2] == p[k2] && m[k2] in xs';
          IndexOfSnoc(xs', x, m[k2]);
        } else {
          assert m == p + [x] && m[k2] == x;
          IndexOfLast(xs', x);
        }
      }
    }
  }

  lemma AppendAssociative<T>(a: seq<T>, b: seq<T>, c: seq<T>)
    ensures a + (b + c) == (a + b) + c
  {
  }

  lemma InsertAllSnoc<T>(acc: seq<T>, xs: seq<T>, x: T)
    ensures InsertAll(acc, xs + [x]) == Insert(InsertAll(acc, xs), x)
  {
    assert (xs + [x])[..|xs|] == xs;
  }

  /** The insertion-ordered set never holds an element twice. */
  lemma {:induction false} InsertAllDistinct<T>(acc: seq<T>, xs: seq<T>)
    requires Distinct(acc)
    ensures Distinct(InsertAll(acc, xs))
    decreases |xs|
  {
    if xs != [] {
      InsertAllDistinct(acc, xs[..|xs| - 1]);
    }
  }

  /** Adding the elements of a duplicate-free sequence to an empty set gives back that sequence. */
  lemma {:induction false} InsertAllOfDistinct<T>(xs: seq<T>)
    requires Distinct(xs)
    ensures InsertAll([], xs) == xs
    decreases |xs|
  {
    if xs != [] {
      var xs' := xs[..|xs| - 1];
      var x := xs[|xs| - 1];
      assert Distinct(xs') by {
        forall i, j | 0 <= i < j < |xs'| ensures xs'[i] != xs'[j] {
          assert xs'[i] == xs[i] && xs'[j] == xs[j];
        }
      }
      InsertAllOfDistinct(xs');
      assert x !in xs' by {
        forall i | 0 <= i < |xs'| ensures xs'[i] != x {
          assert xs'[i] == xs[i];
        }
      }
      assert xs' + [x] == xs;
    }
  }

  /** Adding elements the set already holds changes nothing. */
  lemma {:induction false} InsertAllAbsorbed<T>(acc: seq<T>, xs: seq<T>)
    requires forall x :: x in xs ==> x in acc
    ensures InsertAll(acc, xs) == acc
    decreases |xs|
  {
    if xs != [] {
      var xs' := xs[..|xs| - 1];
      assert forall x :: x in xs' ==> x in xs;
      InsertAllAbsorbed(acc, xs');
      assert xs[|xs| - 1] in xs;
    }
  }
}
