/** Comparing two lists of strings by sorting both and walking them side by side. */
module SliceDelta {
  import opened Options
  import opened Sorting

  method SortStrings(a: array<string>)
    modifies a
    ensures Sorted(Less, a[..]) && multiset(a[..]) == old(multiset(a[..]))
  {
    LessIsStrictTotalOrder();
    var s := Sort(Less, a[..]);
    assert |a[..]| == a.Length;
    forall i | 0 <= i < a.Length { a[i] := s[i]; }
    assert a[..] == s;
  }

  ghost predicate AllBelow<T>(less: (T, T) -> bool, s: seq<T>, x: T) {
    forall y <- s :: less(y, x)
  }

  /** A bound of a list is not in it, and anything not less than a bound is a bound. */
  lemma BoundMoves<T(!new)>(less: (T, T) -> bool, s: seq<T>, x: T, y: T)
    requires StrictTotalOrder(less) && AllBelow(less, s, x) && !less(y, x)
    ensures AllBelow(less, s, y) && x !in s
  {
  }

  /** What holds of a sorted list between one element and the next. */
  lemma Advance<T(!new)>(less: (T, T) -> bool, s: seq<T>, i: nat, below: seq<T>)
    requires StrictTotalOrder(less) && Sorted(less, s) && i < |s| && AllBelow(less, below, s[i])
    ensures s[i] !in below && (i + 1 < |s| ==> AllBelow(less, below, s[i + 1]))
    ensures multiset(s[..i + 1]) == multiset(s[..i]) + multiset{s[i]}
  {
    assert s[..i + 1] == s[..i] + [s[i]];
    BoundMoves(less, below, s[i], if i + 1 < |s| then s[i + 1] else s[i]);
  }

  lemma Extend<T(!new)>(less: (T, T) -> bool, s: seq<T>, x: T, bound: T)
    requires AllBelow(less, s, bound) && less(x, bound)
    ensures AllBelow(less, s + [x], bound)
  {
  }

  /** The walk has passed `o` old and `n` new elements and sorted them into the three results. */
  ghost predicate Walked<T>(less: (T, T) -> bool, rold: seq<T>, rnew: seq<T>, o: nat, n: nat,
                            added: seq<T>, removed: seq<T>, both: seq<T>) {
    && o <= |rold| && n <= |rnew|
    && multiset(added) + multiset(both) == multiset(rnew[..n])
    && multiset(removed) + multiset(both) == multiset(rold[..o])
    && (o < |rold| ==> AllBelow(less, added, rold[o]))
    && (n < |rnew| ==> AllBelow(less, removed, rnew[n]))
    && (forall x <- added :: x !in removed)
  }

  lemma WalkNew<T(!new)>(less: (T, T) -> bool, rold: seq<T>, rnew: seq<T>, o: nat, n: nat,
                         added: seq<T>, removed: seq<T>, both: seq<T>)
    requires StrictTotalOrder(less) && Sorted(less, rnew) && Walked(less, rold, rnew, o, n, added, removed, both)
    requires n < |rnew| && (o < |rold| ==> less(rnew[n], rold[o]))
    ensures Walked(less, rold, rnew, o, n + 1, added + [rnew[n]], removed, both)
  {
    Advance(less, rnew, n, removed);
    if o < |rold| { Extend(less, added, rnew[n], rold[o]); }
  }

  lemma WalkOld<T(!new)>(less: (T, T) -> bool, rold: seq<T>, rnew: seq<T>, o: nat, n: nat,
                         added: seq<T>, removed: seq<T>, both: seq<T>)
    requires StrictTotalOrder(less) && Sorted(less, rold) && Walked(less, rold, rnew, o, n, added, removed, both)
    requires o < |rold| && (n < |rnew| ==> less(rold[o], rnew[n]))
    ensures Walked(less, rold, rnew, o + 1, n, added, removed + [rold[o]], both)
  {
    Advance(less, rold, o, added);
    if n < |rnew| { Extend(less, removed, rold[o], rnew[n]); }
  }

  lemma WalkBoth<T(!new)>(less: (T, T) -> bool, rold: seq<T>, rnew: seq<T>, o: nat, n: nat,
                          added: seq<T>, removed: seq<T>, both: seq<T>)
    requires StrictTotalOrder(less) && Sorted(less, rold) && Sorted(less, rnew)
    requires Walked(less, rold, rnew, o, n, added, removed, both)
    requires o < |rold| && n < |rnew| && rold[o] == rnew[n]
    ensures Walked(less, rold, rnew, o + 1, n + 1, added, removed, both + [rold[o]])
  {
    Advance(less, rnew, n, removed);
    Advance(less, rold, o, added);
  }

  /** The walk over two sorted lists: which elements are only in the second, only in the first, in both. */
  method Walk<T(!new, ==)>(less: (T, T) -> bool, rold: seq<T>, rnew: seq<T>)
    returns (added: seq<T>, removed: seq<T>, intersection: seq<T>)
    requires StrictTotalOrder(less) && Sorted(less, rold) && Sorted(less, rnew)
    ensures multiset(added) + multiset(intersection) == multiset(rnew)
    ensures multiset(removed) + multiset(intersection) == multiset(rold)
    ensures forall x <- added :: x !in removed
  {
    added, removed, intersection := [], [], [];
    var o, n := 0, 0;
    while o < |rold| || n < |rnew|
      invariant 0 <= o <= |rold| && 0 <= n <= |rnew|
      invariant Walked(less, rold, rnew, o, n, added, removed, intersection)
      decreases |rold| - o + |rnew| - n
    {
      if o == |rold| || (n < |rnew| && less(rnew[n], rold[o])) {
        WalkNew(less, rold, rnew, o, n, added, removed, intersection);
        added := added + [rnew[n]];
        n := n + 1;
      } else if n == |rnew| || less(rold[o], rnew[n]) {
        WalkOld(less, rold, rnew, o, n, added, removed, intersection);
        removed := removed + [rold[o]];
        o := o + 1;
      } else {
        WalkBoth(less, rold, rnew, o, n, added, removed, intersection);
        intersection := intersection + [rold[o]];
        o := o + 1;
        n := n + 1;
      }
    }
    assert rnew[..n] == rnew && rold[..o] == rold;
  }

  /** Two bags that share `both` and have nothing else in common. */
  lemma SplitIsAlgebra<T>(first: multiset<T>, second: multiset<T>, onlySecond: multiset<T>, onlyFirst: multiset<T>, both: multiset<T>)
    requires onlySecond + both == second && onlyFirst + both == first
    requires forall x :: x in onlySecond ==> x !in onlyFirst
    ensures onlySecond == second - first && onlyFirst == first - second && both == first * second
  {
    forall x
      ensures onlySecond[x] == (second - first)[x] && onlyFirst[x] == (first - second)[x] && both[x] == (first * second)[x]
    {
      assert second[x] == onlySecond[x] + both[x] && first[x] == onlyFirst[x] + both[x];
      assert onlySecond[x] == 0 || onlyFirst[x] == 0;
    }
  }

  /** Both slices are sorted in place, unless one of them is empty. */
  method StringSliceDelta(rold: array<string>, rnew: array<string>)
    returns (added: seq<string>, removed: seq<string>, intersection: seq<string>)
    modifies rold, rnew
    ensures multiset(added) == old(multiset(rnew[..])) - old(multiset(rold[..]))
    ensures multiset(removed) == old(multiset(rold[..])) - old(multiset(rnew[..]))
    ensures multiset(intersection) == old(multiset(rold[..])) * old(multiset(rnew[..]))
    ensures multiset(rold[..]) == old(multiset(rold[..])) && multiset(rnew[..]) == old(multiset(rnew[..]))
  {
    if rold.Length == 0 && rnew.Length == 0 {
      return [], [], [];
    }
    if rold.Length == 0 {
      return rnew[..], [], [];
    }
    if rnew.Length == 0 {
      return [], rold[..], [];
    }
    SortStrings(rold);
    SortStrings(rnew);
    if rold == rnew {
      assert rold[..] == rnew[..];
    }
    LessIsStrictTotalOrder();
    added, removed, intersection := Walk(Less, rold[..], rnew[..]);
    assert forall x :: x in multiset(added) ==> x in added;
    assert forall x :: x in multiset(removed) ==> x in removed;
    SplitIsAlgebra(multiset(rold[..]), multiset(rnew[..]), multiset(added), multiset(removed), multiset(intersection));
  }

  // ----- tags in restricted namespaces

  /** `prefix` stands for the tag regular expression: the namespace of a well-formed prefixed tag. */
  predicate InNamespace(prefix: string -> Option<string>, namespaces: set<string>, tag: string) {
    prefix(tag).Some? && prefix(tag).value in namespaces
  }

  ghost function Restricted(prefix: string -> Option<string>, namespaces: set<string>, tags: seq<string>): seq<string> {
    if tags == [] then []
    else
      var last := tags[|tags| - 1];
      Restricted(prefix, namespaces, tags[..|tags| - 1]) + if InNamespace(prefix, namespaces, last) then [last] else []
  }

  /** Filtering keeps each tag of the namespaces exactly as often as it occurs, and nothing else. */
  lemma {:induction false} RestrictedCounts(prefix: string -> Option<string>, namespaces: set<string>, tags: seq<string>, tag: string)
    ensures multiset(Restricted(prefix, namespaces, tags))[tag] ==
      if InNamespace(prefix, namespaces, tag) then multiset(tags)[tag] else 0
  {
    if tags != [] {
      var init, last := tags[..|tags| - 1], tags[|tags| - 1];
      assert tags == init + [last];
      RestrictedCounts(prefix, namespaces, init, tag);
    }
  }

  /** And it keeps them in order: the tags of a first part come before those of the rest. */
  lemma {:induction false} RestrictedInOrder(prefix: string -> Option<string>, namespaces: set<string>, a: seq<string>, b: seq<string>)
    ensures Restricted(prefix, namespaces, a + b) == Restricted(prefix, namespaces, a) + Restricted(prefix, namespaces, b)
    ensures |b| == 1 ==> Restricted(prefix, namespaces, b) == if InNamespace(prefix, namespaces, b[0]) then b else []
    decreases |b|
  {
    if b == [] {
      assert a + b == a;
    } else {
      var init := b[..|b| - 1];
      assert (a + b)[..|a + b| - 1] == a + init;
      RestrictedInOrder(prefix, namespaces, a, init);
    }
  }

  method FilterTags(prefix: string -> Option<string>, namespaces: set<string>, tags: seq<string>) returns (out: seq<string>)
    ensures out == Restricted(prefix, namespaces, tags)
  {
    out := [];
    if namespaces == {} {
      forall x ensures multiset(Restricted(prefix, namespaces, tags))[x] == 0 {
        RestrictedCounts(prefix, namespaces, tags, x);
      }
      assert multiset(Restricted(prefix, namespaces, tags)) == multiset{};
      return;
    }
    for i := 0 to |tags|
      invariant out == Restricted(prefix, namespaces, tags[..i])
    {
      assert tags[..i + 1][..i] == tags[..i];
      if InNamespace(prefix, namespaces, tags[i]) {
        out := out + [tags[i]];
      }
    }
    assert tags[..|tags|] == tags;
  }

  /** Sort both lists and compare them element by element. */
  method SameAfterSorting<T(!new, ==)>(less: (T, T) -> bool, rold: seq<T>, rnew: seq<T>) returns (same: bool)
    requires StrictTotalOrder(less) && |rold| == |rnew|
    ensures same <==> multiset(rold) == multiset(rnew)
  {
    var sold, snew := Sort(less, rold), Sort(less, rnew);
    if multiset(rold) == multiset(rnew) {
      SortedIsUnique(less, sold, snew);
    }
    same := SameElements(sold, snew);
  }

  method SameElements<T(==)>(a: seq<T>, b: seq<T>) returns (same: bool)
    requires |a| == |b|
    ensures same <==> a == b
  {
    for i := 0 to |b|
      invariant a[..i] == b[..i]
    {
      if a[i] != b[i] {
        return false;
      }
    }
    return true;
  }

  /** True iff both lists have the same restricted tags, counted with multiplicity. */
  method RestrictedTagsEqual(prefix: string -> Option<string>, namespaces: set<string>, oldTags: seq<string>, newTags: seq<string>)
    returns (same: bool)
    ensures same <==> forall tag :: InNamespace(prefix, namespaces, tag) ==> multiset(oldTags)[tag] == multiset(newTags)[tag]
  {
    var rold := FilterTags(prefix, namespaces, oldTags);
    var rnew := FilterTags(prefix, namespaces, newTags);
    SameCounts(prefix, namespaces, oldTags, newTags);
    if |rold| != |rnew| {
      assert |multiset(rold)| == |rold| && |multiset(rnew)| == |rnew|;
      same := false;
    } else {
      LessIsStrictTotalOrder();
      same := SameAfterSorting(Less, rold, rnew);
    }
  }

  lemma SameCounts(prefix: string -> Option<string>, namespaces: set<string>, a: seq<string>, b: seq<string>)
    ensures multiset(Restricted(prefix, namespaces, a)) == multiset(Restricted(prefix, namespaces, b)) <==>
      forall tag :: InNamespace(prefix, namespaces, tag) ==> multiset(a)[tag] == multiset(b)[tag]
  {
    var ra, rb := Restricted(prefix, namespaces, a), Restricted(prefix, namespaces, b);
    if multiset(ra) == multiset(rb) {
      forall tag | InNamespace(prefix, namespaces, tag) ensures multiset(a)[tag] == multiset(b)[tag] {
        RestrictedCounts(prefix, namespaces, a, tag);
        RestrictedCounts(prefix, namespaces, b, tag);
      }
    }
    if forall tag :: InNamespace(prefix, namespaces, tag) ==> multiset(a)[tag] == multiset(b)[tag] {
      forall tag ensures multiset(ra)[tag] == multiset(rb)[tag] {
        RestrictedCounts(prefix, namespaces, a, tag);
        RestrictedCounts(prefix, namespaces, b, tag);
      }
    }
  }
}
