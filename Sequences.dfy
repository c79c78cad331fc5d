/**
 * Order-preserving selection over sequences: the shape shared by JavaScript's
 * `Array.prototype.filter` and a pandas boolean-mask row selection.
 */
module Sequences {

  /** The elements of `s` for which `keep` holds, in their original order. */
  function Select<T(==,!new)>(s: seq<T>, keep: T -> bool): (r: seq<T>)
    ensures forall x :: x in r <==> x in s && keep(x)
    ensures (forall x :: x in s ==> keep(x)) ==> r == s
    ensures |r| < |s| <==> exists x :: x in s && !keep(x)
    decreases s
  {
    if s == [] then []
    else if keep(s[0]) then [s[0]] + Select(s[1..], keep)
    else Select(s[1..], keep)
  }

  /** `a` is obtained from `b` by deleting elements: same elements, same relative order. */
  predicate IsSubsequence<T(==)>(a: seq<T>, b: seq<T>)
    decreases |b|
  {
    a == [] || (b != [] && ((a[0] == b[0] && IsSubsequence(a[1..], b[1..])) || IsSubsequence(a, b[1..])))
  }

  lemma {:induction false} SelectIsSubsequence<T(!new)>(s: seq<T>, keep: T -> bool)
    ensures IsSubsequence(Select(s, keep), s)
    decreases s
  {
    if s != [] {
      SelectIsSubsequence(s[1..], keep);
      if keep(s[0]) {
        assert Select(s, keep)[1..] == Select(s[1..], keep);
      }
    }
  }

  /** One step of `Select` on a sequence written as head and tail. */
  lemma SelectCons<T(!new)>(x: T, s: seq<T>, keep: T -> bool)
    ensures Select([x] + s, keep) == if keep(x) then [x] + Select(s, keep) else Select(s, keep)
  {
    assert ([x] + s)[0] == x;
    assert ([x] + s)[1..] == s;
  }

  lemma {:induction false} SelectAppend<T(!new)>(a: seq<T>, b: seq<T>, keep: T -> bool)
    ensures Select(a + b, keep) == Select(a, keep) + Select(b, keep)
    decreases a
  {
    if a == [] {
      assert a + b == b;
    } else {
      SelectAppend(a[1..], b, keep);
      SelectAppendStep(a[0], a[1..], b, keep);
      assert a == [a[0]] + a[1..];
    }
  }

  /** The inductive step of `SelectAppend`: putting one element in front keeps the split. */
  lemma SelectAppendStep<T(!new)>(x: T, tail: seq<T>, b: seq<T>, keep: T -> bool)
    requires Select(tail + b, keep) == Select(tail, keep) + Select(b, keep)
    ensures Select([x] + tail + b, keep) == Select([x] + tail, keep) + Select(b, keep)
  {
    AppendAssociative([x], tail, b);
    SelectCons(x, tail + b, keep);
    SelectCons(x, tail, keep);
    if keep(x) {
      AppendAssociative([x], Select(tail, keep), Select(b, keep));
    }
  }

  lemma AppendAssociative<T>(a: seq<T>, b: seq<T>, c: seq<T>)
    ensures a + (b + c) == (a + b) + c
  {
  }

  /** Every copy of a kept element survives: multiplicities are kept for passing elements, zero otherwise. */
  lemma {:induction false} SelectCount<T(!new)>(s: seq<T>, keep: T -> bool)
    ensures forall x :: multiset(Select(s, keep))[x] == if keep(x) then multiset(s)[x] else 0
    decreases s
  {
    if s != [] {
      SelectCount(s[1..], keep);
      assert s == [s[0]] + s[1..];
      SelectCons(s[0], s[1..], keep);
      assert multiset(s) == multiset{s[0]} + multiset(s[1..]);
    }
  }

  /** Selecting twice with the same test selects nothing more. */
  lemma SelectIdempotent<T(!new)>(s: seq<T>, keep: T -> bool)
    ensures Select(Select(s, keep), keep) == Select(s, keep)
  {
  }
}
