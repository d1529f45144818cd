/** The overload expander: `WithOverloads` and `MethodsAndOverloads`. */
module Overloads {
  import opened Odcm

  /** A method followed by its overloads: what `WithOverloads` builds. */
  function Expanded(m: Method): seq<Method>
  {
    [m] + m.overloads
  }

  /** The expansions of `ms`, one after the other. */
  function ExpandedAll(ms: seq<Method>): seq<Method>
  {
    if ms == [] then [] else ExpandedAll(ms[..|ms| - 1]) + Expanded(ms[|ms| - 1])
  }

  /** The number of methods and overloads in `ms`: the sum of 1 + |overloads|. */
  function Count(ms: seq<Method>): nat
  {
    if ms == [] then 0 else 1 + |ms[0].overloads| + Count(ms[1..])
  }

  /** `WithOverloads`: a new list holding the method, then its overloads in order. */
  method WithOverloads(m: Method) returns (methods: seq<Method>)
    ensures |methods| == 1 + |m.overloads|
    ensures methods[0] == m && methods[1..] == m.overloads
  {
    methods := [];
    methods := methods + [m];
    methods := methods + m.overloads;
  }

  /** `MethodsAndOverloads`: each declared method's `WithOverloads`, in declaration order. */
  method MethodsAndOverloads(c: Class) returns (allMethods: seq<Method>)
    ensures allMethods == ExpandedAll(c.methods)
    ensures |allMethods| == Count(c.methods)
  {
    allMethods := [];
    for i := 0 to |c.methods|
      invariant allMethods == ExpandedAll(c.methods[..i])
    {
      var expanded := WithOverloads(c.methods[i]);
      assert expanded == Expanded(c.methods[i]);
      assert c.methods[..i + 1][..i] == c.methods[..i];
      allMethods := allMethods + expanded;
    }
    assert c.methods[..|c.methods|] == c.methods;
    ExpandedAllLength(c.methods);
  }

  /** The number of entries `ExpandedAll` produces is the sum of 1 + |overloads|. */
  lemma {:induction false} ExpandedAllLength(ms: seq<Method>)
    ensures |ExpandedAll(ms)| == Count(ms)
  {
    if ms != [] {
      var n := |ms| - 1;
      ExpandedAllLength(ms[..n]);
      CountSnoc(ms[..n], ms[n]);
      assert ms[..n] + [ms[n]] == ms;
    }
  }

  lemma {:induction false} CountSnoc(ms: seq<Method>, m: Method)
    ensures Count(ms + [m]) == Count(ms) + 1 + |m.overloads|
  {
    if ms != [] {
      CountSnoc(ms[1..], m);
      assert (ms + [m])[1..] == ms[1..] + [m];
    }
  }

  /** Where the expansion of the `i`-th declared method starts. */
  function Offset(ms: seq<Method>, i: nat): nat
    requires i <= |ms|
  {
    Count(ms[..i])
  }

  /**
   * The `i`-th declared method sits at `Offset(ms, i)`, directly followed by its
   * overloads in order.
   */
  lemma {:induction false} ExpandedAllAt(ms: seq<Method>, i: nat)
    requires i < |ms|
    ensures Offset(ms, i) + 1 + |ms[i].overloads| <= |ExpandedAll(ms)|
    ensures ExpandedAll(ms)[Offset(ms, i)] == ms[i]
    ensures ExpandedAll(ms)[Offset(ms, i) + 1 .. Offset(ms, i) + 1 + |ms[i].overloads|] == ms[i].overloads
  {
    var n := |ms| - 1;
    ExpandedAllLength(ms[..n]);
    assert ms[..n][..n] == ms[..n];
    if i < n {
      ExpandedAllAt(ms[..n], i);
      assert ms[..n][..i] == ms[..i];
    } else {
      assert ms[..i] == ms[..n];
    }
  }
}
