/**
 * The pandas column operations the report uses, on sequences: `unique()` (distinct values in
 * order of first appearance, a missing value included) and `nunique()` (how many distinct
 * values, missing ones not counted).
 */
module Columns {
  import opened Wrappers

  /** `Series.unique()`: the distinct values of `xs`, in order of first appearance. */
  function Unique<T(==)>(xs: seq<T>): seq<T>
  {
    if xs == [] then []
    else
      var u := Unique(xs[..|xs| - 1]);
      if xs[|xs| - 1] in u then u else u + [xs[|xs| - 1]]
  }

  /** `unique()` loses no value and invents none, and lists each value once. */
  lemma {:induction false} UniqueMembers<T>(xs: seq<T>)
    ensures forall x :: x in Unique(xs) <==> x in xs
    ensures forall i, j :: 0 <= i < j < |Unique(xs)| ==> Unique(xs)[i] != Unique(xs)[j]
  {
    if xs != [] {
      UniqueMembers(xs[..|xs| - 1]);
      assert xs == xs[..|xs| - 1] + [xs[|xs| - 1]];
    }
  }

  lemma UniqueElement<T>(xs: seq<T>, i: nat)
    requires i < |Unique(xs)|
    ensures Unique(xs)[i] in xs
  {
    UniqueMembers(xs);
  }

  /** The index of the first occurrence of `x` in `xs`. */
  function IndexOf<T(==)>(xs: seq<T>, x: T): (i: nat)
    requires x in xs
    ensures i < |xs| && xs[i] == x
    ensures forall j :: 0 <= j < i ==> xs[j] != x
  {
    if xs[0] == x then 0 else 1 + IndexOf(xs[1..], x)
  }

  lemma IndexOfPrefix<T>(xs: seq<T>, y: T, x: T)
    requires x in xs
    ensures x in xs + [y] && IndexOf(xs + [y], x) == IndexOf(xs, x)
  {
    var i := IndexOf(xs, x);
    assert (xs + [y])[i] == x;
    var k := IndexOf(xs + [y], x);
    assert k <= i;
  }

  /** `unique()` lists values in the order in which they first appear. */
  lemma {:induction false} UniqueFirstSeenOrder<T>(xs: seq<T>, i: nat, j: nat)
    requires i < j < |Unique(xs)|
    ensures Unique(xs)[i] in xs && Unique(xs)[j] in xs
    ensures IndexOf(xs, Unique(xs)[i]) < IndexOf(xs, Unique(xs)[j])
  {
    var init := xs[..|xs| - 1];
    var last := xs[|xs| - 1];
    assert xs == init + [last];
    var u := Unique(init);
    UniqueMembers(init);
    UniqueMembers(xs);
    if j < |u| {
      UniqueFirstSeenOrder(init, i, j);
      IndexOfPrefix(init, last, u[i]);
      IndexOfPrefix(init, last, u[j]);
    } else {
      assert Unique(xs) == u + [last];
      UniqueElement(init, i);
      IndexOfPrefix(init, last, u[i]);
      assert IndexOf(xs, last) == |init|;
    }
  }

  /** The first value `unique()` lists is the first value of the column. */
  lemma {:induction false} UniqueHead<T>(xs: seq<T>)
    requires |xs| > 0
    ensures |Unique(xs)| > 0 && Unique(xs)[0] == xs[0]
  {
    if |xs| > 1 {
      UniqueHead(xs[..|xs| - 1]);
    }
  }

  /** The values present in a column, in order: the missing ones dropped. */
  function Present<T>(xs: seq<Option<T>>): seq<T>
  {
    if xs == [] then []
    else (if xs[0].Some? then [xs[0].value] else []) + Present(xs[1..])
  }

  lemma {:induction false} PresentMembers<T>(xs: seq<Option<T>>)
    ensures forall v :: v in Present(xs) <==> Some(v) in xs
  {
    if xs != [] {
      PresentMembers(xs[1..]);
      assert xs == [xs[0]] + xs[1..];
    }
  }

  /** The set of values present in a column. */
  ghost function Values<T(!new)>(xs: seq<Option<T>>): set<T>
  {
    set i | 0 <= i < |xs| && xs[i].Some? :: xs[i].value
  }

  lemma {:induction false} DistinctCard<T(!new)>(s: seq<T>)
    requires forall i, j :: 0 <= i < j < |s| ==> s[i] != s[j]
    ensures |set x | x in s| == |s|
  {
    if s != [] {
      var init := s[..|s| - 1];
      DistinctCard(init);
      assert (set x | x in s) == (set x | x in init) + {s[|s| - 1]};
    }
  }

  /** `Series.nunique()`: how many distinct values are present. */
  function NUnique<T(==)>(xs: seq<Option<T>>): nat
  {
    |Unique(Present(xs))|
  }

  /** `nunique()` is the number of distinct values present; missing values do not count. */
  lemma NUniqueCounts<T(!new)>(xs: seq<Option<T>>)
    ensures NUnique(xs) == |Values(xs)|
  {
    var u := Unique(Present(xs));
    UniqueMembers(Present(xs));
    PresentMembers(xs);
    DistinctCard(u);
    assert (set x | x in u) == Values(xs);
  }
}
