/** sort.Slice and slices.Sort: an ordered permutation. */
module Sorting {
  // lt is a strict weak order: its "not after" relation is total and transitive.
  ghost predicate StrictWeakOrder<T(!new)>(lt: (T, T) -> bool) {
    && (forall a, b :: lt(a, b) ==> !lt(b, a))
    && (forall a, b, c :: !lt(b, a) && !lt(c, b) ==> !lt(c, a))
  }

  ghost predicate Ordered<T>(lt: (T, T) -> bool, s: seq<T>) {
    forall i, j :: 0 <= i < j < |s| ==> !lt(s[j], s[i])
  }

  function Inserted<T>(lt: (T, T) -> bool, s: seq<T>, x: T): seq<T> {
    if s == [] || !lt(x, s[|s| - 1]) then s + [x]
    else Inserted(lt, s[..|s| - 1], x) + [s[|s| - 1]]
  }

  lemma {:induction false} InsertedPermutes<T>(lt: (T, T) -> bool, s: seq<T>, x: T)
    ensures multiset(Inserted(lt, s, x)) == multiset(s) + multiset{x}
  {
    if s == [] || !lt(x, s[|s| - 1]) {
    } else {
      InsertedPermutes(lt, s[..|s| - 1], x);
      assert s == s[..|s| - 1] + [s[|s| - 1]];
    }
  }

  lemma {:induction false} InsertedOrdered<T(!new)>(lt: (T, T) -> bool, s: seq<T>, x: T)
    requires StrictWeakOrder(lt) && Ordered(lt, s)
    ensures Ordered(lt, Inserted(lt, s, x))
  {
    if s == [] {
    } else if !lt(x, s[|s| - 1]) {
      var last := s[|s| - 1];
      forall i | 0 <= i < |s| ensures !lt(x, s[i]) {
        assert i < |s| - 1 ==> !lt(last, s[i]);
      }
    } else {
      var init, last := s[..|s| - 1], s[|s| - 1];
      InsertedOrdered(lt, init, x);
      InsertedPermutes(lt, init, x);
      var r := Inserted(lt, init, x);
      forall i | 0 <= i < |r| ensures !lt(last, r[i]) {
        assert r[i] in multiset(r);
        if r[i] != x {
          assert r[i] in multiset(init);
          var k :| 0 <= k < |init| && init[k] == r[i];
          assert !lt(s[|s| - 1], s[k]);
        }
      }
    }
  }

  method Sort<T(!new)>(s: seq<T>, lt: (T, T) -> bool) returns (r: seq<T>)
    requires StrictWeakOrder(lt)
    ensures multiset(r) == multiset(s) && Ordered(lt, r)
  {
    r := [];
    for i := 0 to |s|
      invariant multiset(r) == multiset(s[..i]) && Ordered(lt, r)
    {
      assert s[..i + 1] == s[..i] + [s[i]];
      InsertedPermutes(lt, r, s[i]);
      InsertedOrdered(lt, r, s[i]);
      r := Inserted(lt, r, s[i]);
    }
    assert s[..|s|] == s;
  }

  ghost predicate Distinct<T>(s: seq<T>) {
    forall i, j :: 0 <= i < j < |s| ==> s[i] != s[j]
  }

  lemma {:induction false} DistinctCounts<T>(s: seq<T>)
    ensures Distinct(s) <==> forall x :: multiset(s)[x] <= 1
  {
    if s != [] {
      var init, last := s[..|s| - 1], s[|s| - 1];
      DistinctCounts(init);
      assert s == init + [last];
      assert multiset(s) == multiset(init) + multiset{last};
      if Distinct(s) {
        assert last !in init;
        assert forall x :: multiset(s)[x] == multiset(init)[x] + multiset{last}[x];
      }
      if forall x :: multiset(s)[x] <= 1 {
        assert forall x :: multiset(init)[x] <= multiset(s)[x];
        assert multiset(s)[last] <= 1;
        assert last !in multiset(init);
        assert last !in init;
      }
    }
  }

  lemma HasElement<T>(s: seq<T>)
    ensures s == [] || exists x :: x in s
  {
    if s != [] { assert s[0] in s; }
  }

  // Sorting keeps the elements, and keeps them distinct.
  lemma PermutationElements<T>(a: seq<T>, b: seq<T>)
    requires multiset(a) == multiset(b)
    ensures |a| == |b|
    ensures forall x :: x in a <==> x in b
    ensures Distinct(a) <==> Distinct(b)
  {
    assert |multiset(a)| == |a| && |multiset(b)| == |b|;
    assert forall x :: x in a <==> x in multiset(a);
    assert forall x :: x in b <==> x in multiset(b);
    DistinctCounts(a);
    DistinctCounts(b);
  }
}
