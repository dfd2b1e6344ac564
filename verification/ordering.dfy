/**
 * Ordered collections as the pipeline builds them: port vectors after
 * `sort_unstable` + `dedup`, and the contents of a `BTreeSet<String>`
 * (strictly increasing in lexicographic order).
 */
module Ordering {
  import opened Text

  predicate StrictlyAscending(s: seq<int>) {
    forall i, j :: 0 <= i < j < |s| ==> s[i] < s[j]
  }

  /** The members of `values` that are at least `from`, in ascending order. */
  function AscendingFrom(values: set<U16>, from: nat): (r: seq<U16>)
    ensures StrictlyAscending(r)
    ensures forall x :: x in r <==> x in values && from <= x
    decreases 0x1_0000 - from
  {
    if from >= 0x1_0000 then []
    else
      var rest := AscendingFrom(values, from + 1);
      if (from as U16) in values then
        assert forall k :: 0 <= k < |rest| ==> rest[k] in rest;
        [from as U16] + rest
      else rest
  }

  /**
   * What `sort_unstable` followed by `dedup` leaves in a vector of `u16`:
   * each value it held, once, in ascending order.
   */
  function SortedDistinct(a: seq<U16>): (r: seq<U16>)
    ensures StrictlyAscending(r)
    ensures forall x :: x in r <==> x in a
  {
    AscendingFrom(set x | x in a, 0)
  }

  /** A strictly ascending sequence is determined by its elements. */
  lemma {:induction false} AscendingUnique(r1: seq<int>, r2: seq<int>)
    requires StrictlyAscending(r1) && StrictlyAscending(r2)
    requires forall x :: x in r1 <==> x in r2
    ensures r1 == r2
    decreases |r1|
  {
    if r1 != [] {
      assert r1[0] in r1;
    }
    if r2 != [] {
      assert r2[0] in r2;
    }
    if r1 != [] && r2 != [] {
      assert r1[0] == r2[0] by {
        assert r1[0] in r2 && r2[0] in r1;
      }
      forall x
        ensures x in r1[1..] <==> x in r2[1..]
      {
        if x in r1[1..] {
          assert x in r2 && x != r2[0];
        }
        if x in r2[1..] {
          assert x in r1 && x != r1[0];
        }
      }
      AscendingUnique(r1[1..], r2[1..]);
      assert r1 == [r1[0]] + r1[1..] && r2 == [r2[0]] + r2[1..];
    }
  }

  /**
   * Lexicographic order on strings by scalar value. It coincides with the byte
   * order of their UTF-8 encodings, which is the order of `String` in Rust.
   */
  predicate Below(a: string, b: string)
    decreases |a|
  {
    if a == [] then b != []
    else b != [] && (a[0] < b[0] || (a[0] == b[0] && Below(a[1..], b[1..])))
  }

  lemma {:induction false} BelowIrreflexive(a: string)
    ensures !Below(a, a)
    decreases |a|
  {
    if a != [] {
      BelowIrreflexive(a[1..]);
    }
  }

  lemma {:induction false} BelowTransitive(a: string, b: string, c: string)
    requires Below(a, b) && Below(b, c)
    ensures Below(a, c)
    decreases |a|
  {
    if a != [] && a[0] == b[0] && b[0] == c[0] {
      BelowTransitive(a[1..], b[1..], c[1..]);
    }
  }

  lemma {:induction false} BelowTotal(a: string, b: string)
    ensures a == b || Below(a, b) || Below(b, a)
    decreases |a|
  {
    if a != [] && b != [] && a[0] == b[0] {
      BelowTotal(a[1..], b[1..]);
      if a[1..] == b[1..] {
        assert a == [a[0]] + a[1..] && b == [b[0]] + b[1..];
      }
    }
  }

  predicate StrictlySorted(s: seq<string>) {
    forall i, j :: 0 <= i < j < |s| ==> Below(s[i], s[j])
  }

  /** `BTreeSet::insert`, on the set's contents in order. */
  method InsertSorted(s: seq<string>, x: string) returns (r: seq<string>)
    requires StrictlySorted(s)
    ensures StrictlySorted(r)
    ensures forall y :: y in r <==> y in s || y == x
    ensures |r| == if x in s then |s| else |s| + 1
  {
    var i := 0;
    while i < |s| && Below(s[i], x)
      invariant 0 <= i <= |s|
      invariant forall k :: 0 <= k < i ==> Below(s[k], x)
    {
      i := i + 1;
    }
    if i < |s| && s[i] == x {
      r := s;
    } else {
      InsertionPoint(s, x, i);
      InsertedSorted(s, x, i);
      r := s[..i] + [x] + s[i..];
      assert s == s[..i] + s[i..];
    }
  }

  /** Where the search stops short of `x`, everything from there on is above `x`, so `x` is absent. */
  lemma InsertionPoint(s: seq<string>, x: string, i: nat)
    requires StrictlySorted(s) && i <= |s|
    requires forall k :: 0 <= k < i ==> Below(s[k], x)
    requires i < |s| ==> !Below(s[i], x) && s[i] != x
    ensures forall k :: i <= k < |s| ==> Below(x, s[k])
    ensures x !in s
  {
    if i < |s| {
      BelowTotal(s[i], x);
    }
    forall k | i <= k < |s|
      ensures Below(x, s[k])
    {
      if k > i {
        BelowTransitive(x, s[i], s[k]);
      }
    }
    BelowIrreflexive(x);
    forall k | 0 <= k < |s|
      ensures s[k] != x
    {
      if k < i {
        assert Below(s[k], x);
      } else {
        assert Below(x, s[k]);
      }
    }
  }

  /** `x` put between the members below it and those above it keeps the sequence sorted. */
  lemma InsertedSorted(s: seq<string>, x: string, i: nat)
    requires StrictlySorted(s) && i <= |s|
    requires forall k :: 0 <= k < i ==> Below(s[k], x)
    requires forall k :: i <= k < |s| ==> Below(x, s[k])
    ensures StrictlySorted(s[..i] + [x] + s[i..])
  {
    var r := s[..i] + [x] + s[i..];
    forall a, b | 0 <= a < b < |r|
      ensures Below(r[a], r[b])
    {
      if a < i && b == i {
        assert Below(s[a], x);
      } else if a < i && b > i {
        assert r[b] == s[b - 1];
      } else if a == i {
        assert r[b] == s[b - 1];
      } else if a > i {
        assert r[a] == s[a - 1] && r[b] == s[b - 1];
      }
    }
  }

  /** Collecting a set of strings into a vector: its members, each once, in order. */
  method SortedFromSet(values: set<string>) returns (r: seq<string>)
    ensures StrictlySorted(r)
    ensures forall y :: y in r <==> y in values
    ensures |r| == |values|
  {
    r := [];
    var rest := values;
    while rest != {}
      invariant rest <= values
      invariant StrictlySorted(r)
      invariant forall y :: y in r <==> y in values - rest
      invariant |r| == |values - rest|
      decreases |rest|
    {
      var x :| x in rest;
      assert x !in r;
      r := InsertSorted(r, x);
      assert values - (rest - {x}) == (values - rest) + {x};
      rest := rest - {x};
    }
  }

  /**
   * `BTreeSet::from_iter` followed by `into_iter().collect()`: the distinct
   * members of `items`, in order.
   */
  method SortedDistinctStrings(items: seq<string>) returns (r: seq<string>)
    ensures StrictlySorted(r)
    ensures forall y :: y in r <==> y in items
  {
    r := [];
    for k := 0 to |items|
      invariant StrictlySorted(r)
      invariant forall y :: y in r <==> y in items[..k]
    {
      r := InsertSorted(r, items[k]);
      PrefixSnoc(items, k);
    }
    WholeSlice(items);
  }

  /** Strictly sorted sequences hold no repeated member. */
  lemma SortedDistinctIndices(s: seq<string>, i: int, j: int)
    requires StrictlySorted(s) && 0 <= i < |s| && 0 <= j < |s| && i != j
    ensures s[i] != s[j]
  {
    BelowIrreflexive(s[i]);
  }
}
