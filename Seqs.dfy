/**
 * The LINQ operators the schema queries are built from (`Where`, `SelectMany`,
 * `FirstOrDefault`, `Any`, `Distinct`, `Union`), as functions over finite
 * sequences in their iteration order.
 */
module Seqs {
  import opened Wrappers

  /** `r` can be obtained from `s` by deleting elements, keeping the order of the rest. */
  ghost predicate SubsequenceOf<T>(r: seq<T>, s: seq<T>)
  {
    if r == [] then true
    else if s == [] then false
    else if r[0] == s[0] then SubsequenceOf(r[1..], s[1..])
    else SubsequenceOf(r, s[1..])
  }

  ghost predicate NoDuplicates<T>(s: seq<T>)
  {
    forall i, j :: 0 <= i < j < |s| ==> s[i] != s[j]
  }

  /** `Enumerable.Where`: the elements of `s` that satisfy `f`, in order. */
  function Where<T(!new)>(s: seq<T>, f: T -> bool): (r: seq<T>)
    ensures |r| <= |s|
    ensures forall x :: x in r <==> x in s && f(x)
  {
    if s == [] then []
    else if f(s[0]) then [s[0]] + Where(s[1..], f)
    else Where(s[1..], f)
  }

  lemma {:induction false} WhereIsSubsequence<T(!new)>(s: seq<T>, f: T -> bool)
    ensures SubsequenceOf(Where(s, f), s)
  {
    if s != [] {
      WhereIsSubsequence(s[1..], f);
      if f(s[0]) {
        assert Where(s, f)[1..] == Where(s[1..], f);
      }
    }
  }

  /** `Enumerable.Select`: `f` applied to each element, in order. */
  function Select<T, U>(s: seq<T>, f: T -> U): (r: seq<U>)
    ensures |r| == |s|
    ensures forall i :: 0 <= i < |s| ==> r[i] == f(s[i])
  {
    seq(|s|, i requires 0 <= i < |s| => f(s[i]))
  }

  /** `Enumerable.Any` with a predicate. */
  predicate Any<T>(s: seq<T>, f: T -> bool)
  {
    exists i :: 0 <= i < |s| && f(s[i])
  }

  /** `Enumerable.SelectMany`: the concatenation of `f` over `s`, in order. */
  function SelectMany<T(!new), U(!new)>(s: seq<T>, f: T -> seq<U>): (r: seq<U>)
    ensures forall y :: y in r <==> exists x :: x in s && y in f(x)
  {
    if s == [] then []
    else f(s[0]) + SelectMany(s[1..], f)
  }

  /** `Where(...).FirstOrDefault()`: the first element of `s` that satisfies `f`. */
  function FirstWhere<T>(s: seq<T>, f: T -> bool): (r: Option<T>)
    ensures r.None? <==> forall i :: 0 <= i < |s| ==> !f(s[i])
    ensures r.Some? ==> exists k :: 0 <= k < |s| && s[k] == r.value && f(s[k]) &&
                                   forall j :: 0 <= j < k ==> !f(s[j])
  {
    if s == [] then None
    else if f(s[0]) then Some(s[0])
    else
      var r := FirstWhere(s[1..], f);
      r
  }

  /** The first element that satisfies `f` is what `FirstWhere` returns. */
  lemma FirstWhereIs<T>(s: seq<T>, f: T -> bool, k: nat)
    requires k < |s| && f(s[k])
    requires forall j :: 0 <= j < k ==> !f(s[j])
    ensures FirstWhere(s, f) == Some(s[k])
  {
  }

  /** `Enumerable.Distinct`: the first occurrence of each element, in order. */
  function Distinct<T(==,!new)>(s: seq<T>): (r: seq<T>)
    ensures |r| <= |s|
    ensures forall x :: x in r <==> x in s
    ensures NoDuplicates(r)
  {
    if s == [] then []
    else
      var d := Distinct(s[..|s| - 1]);
      assert s == s[..|s| - 1] + [s[|s| - 1]];
      if s[|s| - 1] in d then d else d + [s[|s| - 1]]
  }

  /** `Enumerable.Union`: set union, keeping first occurrences in order. */
  function Union<T(==,!new)>(a: seq<T>, b: seq<T>): (r: seq<T>)
    ensures forall x :: x in r <==> x in a || x in b
    ensures NoDuplicates(r)
  {
    Distinct(a + b)
  }
}
