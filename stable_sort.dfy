/** The stable sort that `Array.prototype.sort` performs with a comparator.
    `lt(a, b)` holds when the comparator returns a negative number for (a, b), i.e. a
    must come first; elements the comparator calls equal keep their input order. */
module StableSorting {

  /** What a consistent comparator gives: asymmetric and negatively transitive
      (so "neither comes first" is an equivalence and lt is transitive). */
  ghost predicate StrictWeakOrder<T(!new)>(lt: (T, T) -> bool)
  {
    && (forall a, b :: lt(a, b) ==> !lt(b, a))
    && (forall a, b, c :: lt(a, c) ==> lt(a, b) || lt(b, c))
  }

  /** No element is strictly before an element that precedes it. */
  ghost predicate Sorted<T>(r: seq<T>, lt: (T, T) -> bool)
  {
    forall i, j :: 0 <= i < j < |r| ==> !lt(r[j], r[i])
  }

  /** Places x (the latest input element) behind every element it does not strictly precede. */
  function Insert<T>(r: seq<T>, x: T, lt: (T, T) -> bool): (res: seq<T>)
    ensures |res| == |r| + 1
  {
    if |r| == 0 then [x]
    else if lt(x, r[|r| - 1]) then Insert(r[..|r| - 1], x, lt) + [r[|r| - 1]]
    else r + [x]
  }

  function StableSort<T>(s: seq<T>, lt: (T, T) -> bool): (r: seq<T>)
    ensures |r| == |s|
  {
    if |s| == 0 then [] else Insert(StableSort(s[..|s| - 1], lt), s[|s| - 1], lt)
  }

  lemma {:induction false} InsertPermutes<T>(r: seq<T>, x: T, lt: (T, T) -> bool)
    ensures multiset(Insert(r, x, lt)) == multiset(r) + multiset{x}
  {
    if |r| > 0 && lt(x, r[|r| - 1]) {
      InsertPermutes(r[..|r| - 1], x, lt);
      assert r == r[..|r| - 1] + [r[|r| - 1]];
    }
  }

  lemma {:induction false} InsertSorted<T(!new)>(r: seq<T>, x: T, lt: (T, T) -> bool)
    requires StrictWeakOrder(lt)
    requires Sorted(r, lt)
    ensures Sorted(Insert(r, x, lt), lt)
  {
    if |r| > 0 {
      var init, last := r[..|r| - 1], r[|r| - 1];
      if lt(x, last) {
        InsertSorted(init, x, lt);
        InsertPermutes(init, x, lt);
        var ins := Insert(init, x, lt);
        forall i | 0 <= i < |ins| ensures !lt(last, ins[i]) {
          assert ins[i] in multiset(ins);
          if ins[i] != x {
            assert ins[i] in multiset(init);
          }
        }
      } else {
        forall i | 0 <= i < |r| ensures !lt(x, r[i]) {
          if i < |r| - 1 {
            assert !lt(last, r[i]);
          }
        }
      }
    }
  }

  /** The sort returns a permutation of its input. */
  lemma {:induction false} SortPermutes<T>(s: seq<T>, lt: (T, T) -> bool)
    ensures multiset(StableSort(s, lt)) == multiset(s)
  {
    if |s| > 0 {
      var init := s[..|s| - 1];
      SortPermutes(init, lt);
      InsertPermutes(StableSort(init, lt), s[|s| - 1], lt);
      assert s == init + [s[|s| - 1]];
      assert multiset(s) == multiset(init) + multiset{s[|s| - 1]};
    }
  }

  /** With a consistent comparator the result is sorted. */
  lemma {:induction false} SortSorted<T(!new)>(s: seq<T>, lt: (T, T) -> bool)
    requires StrictWeakOrder(lt)
    ensures Sorted(StableSort(s, lt), lt)
  {
    if |s| > 0 {
      SortSorted(s[..|s| - 1], lt);
      InsertSorted(StableSort(s[..|s| - 1], lt), s[|s| - 1], lt);
    }
  }

  lemma SortMembers<T>(s: seq<T>, lt: (T, T) -> bool)
    ensures forall x :: x in StableSort(s, lt) <==> x in s
  {
    SortPermutes(s, lt);
    forall x ensures x in StableSort(s, lt) <==> x in s {
      assert x in StableSort(s, lt) <==> x in multiset(StableSort(s, lt));
      assert x in s <==> x in multiset(s);
    }
  }

  /** Stability: when the comparator ties every pair, the input order is kept. */
  lemma {:induction false} SortAllTied<T>(s: seq<T>, lt: (T, T) -> bool)
    requires forall i, j :: 0 <= i < |s| && 0 <= j < |s| ==> !lt(s[i], s[j])
    ensures StableSort(s, lt) == s
  {
    if |s| > 0 {
      var init := s[..|s| - 1];
      SortAllTied(init, lt);
      assert s == init + [s[|s| - 1]];
      if |init| > 0 {
        assert !lt(s[|s| - 1], init[|init| - 1]);
      }
    }
  }

  /** Neither a nor b has to come first. */
  predicate Tied<T>(lt: (T, T) -> bool, a: T, b: T)
  {
    !lt(a, b) && !lt(b, a)
  }

  /** The elements of s tied with x, in their order in s. */
  function TiedWith<T(!new)>(s: seq<T>, x: T, lt: (T, T) -> bool): (r: seq<T>)
    ensures |r| <= |s|
  {
    if |s| == 0 then []
    else TiedWith(s[..|s| - 1], x, lt) + (if Tied(lt, s[|s| - 1], x) then [s[|s| - 1]] else [])
  }

  /** Under a strict weak order, nothing that must come after an element tied with x
      is tied with x itself. */
  lemma TiesAreBlocks<T(!new)>(lt: (T, T) -> bool, x: T)
    requires StrictWeakOrder(lt)
    ensures forall y, z :: Tied(lt, y, x) && lt(y, z) ==> !Tied(lt, z, x)
  {
    forall y, z | Tied(lt, y, x) && lt(y, z) ensures !Tied(lt, z, x) {
      assert lt(y, x) || lt(x, z);
    }
  }

  /** Inserting y puts it behind every element tied with x that was already there. */
  lemma {:induction false} InsertKeepsTies<T(!new)>(r: seq<T>, y: T, x: T, lt: (T, T) -> bool)
    requires StrictWeakOrder(lt)
    ensures TiedWith(Insert(r, y, lt), x, lt)
      == TiedWith(r, x, lt) + (if Tied(lt, y, x) then [y] else [])
  {
    TiesAreBlocks(lt, x);
    var ins := Insert(r, y, lt);
    var ty := if Tied(lt, y, x) then [y] else [];
    if |r| == 0 {
      assert ins == [y] && ins[..0] == [];
    } else if lt(y, r[|r| - 1]) {
      var init, last := r[..|r| - 1], r[|r| - 1];
      var tl := if Tied(lt, last, x) then [last] else [];
      InsertKeepsTies(init, y, x, lt);
      assert ins[..|ins| - 1] == Insert(init, y, lt) && ins[|ins| - 1] == last;
      assert TiedWith(ins, x, lt) == TiedWith(init, x, lt) + ty + tl;
      assert TiedWith(r, x, lt) == TiedWith(init, x, lt) + tl;
      assert ty == [] || tl == [];
    } else {
      assert ins == r + [y] && ins[..|ins| - 1] == r;
    }
  }

  /** Stability: the elements tied with any x come out in their input order. */
  lemma {:induction false} SortStable<T(!new)>(s: seq<T>, x: T, lt: (T, T) -> bool)
    requires StrictWeakOrder(lt)
    ensures TiedWith(StableSort(s, lt), x, lt) == TiedWith(s, x, lt)
  {
    if |s| > 0 {
      SortStable(s[..|s| - 1], x, lt);
      InsertKeepsTies(StableSort(s[..|s| - 1], lt), s[|s| - 1], x, lt);
    }
  }

  /** x is minimal in s: no element of s must come before it. */
  ghost predicate Minimal<T>(s: seq<T>, x: T, lt: (T, T) -> bool)
  {
    forall j :: 0 <= j < |s| ==> !lt(s[j], x)
  }

  /** Stability at the head: the first element of the result is the earliest minimal input element. */
  lemma {:induction false} SortHead<T(!new)>(s: seq<T>, lt: (T, T) -> bool) returns (k: nat)
    requires StrictWeakOrder(lt)
    requires |s| > 0
    ensures k < |s| && StableSort(s, lt)[0] == s[k]
    ensures Minimal(s, s[k], lt)
    ensures forall i :: 0 <= i < k ==> !Minimal(s, s[i], lt)
  {
    var init, x := s[..|s| - 1], s[|s| - 1];
    assert s == init + [x];
    if |init| == 0 {
      k := 0;
      assert !lt(x, x);
    } else {
      var h := SortHead(init, lt);
      var r' := StableSort(init, lt);
      SortSorted(init, lt);
      InsertHead(r', x, lt);
      if lt(x, init[h]) {
        k := |s| - 1;
        forall j | 0 <= j < |s| ensures !lt(s[j], x) {
          if j < |init| {
            assert !lt(init[j], init[h]);
          }
        }
        forall i | 0 <= i < k ensures !Minimal(s, s[i], lt) {
          assert !lt(init[i], init[h]);
          assert lt(x, s[i]);
        }
      } else {
        k := h;
        forall i | 0 <= i < k ensures !Minimal(s, s[i], lt) {
          assert !Minimal(init, init[i], lt);
          var j :| 0 <= j < |init| && lt(init[j], init[i]);
          assert lt(s[j], s[i]);
        }
      }
    }
  }

  lemma {:induction false} InsertHead<T(!new)>(r: seq<T>, x: T, lt: (T, T) -> bool)
    requires StrictWeakOrder(lt)
    requires Sorted(r, lt) && |r| > 0
    ensures Insert(r, x, lt)[0] == if lt(x, r[0]) then x else r[0]
  {
    if |r| > 1 {
      var init := r[..|r| - 1];
      if lt(x, r[|r| - 1]) {
        InsertHead(init, x, lt);
      }
    }
  }

  /** A comparator that puts every p-element before every other element yields
      a result where the p-elements form a prefix. */
  lemma SortPartitions<T(!new)>(s: seq<T>, lt: (T, T) -> bool, p: T -> bool)
    requires StrictWeakOrder(lt)
    requires forall a, b :: p(a) && !p(b) ==> lt(a, b)
    ensures Partitioned(StableSort(s, lt), p)
  {
    SortSorted(s, lt);
  }

  ghost predicate Partitioned<T>(r: seq<T>, p: T -> bool)
  {
    forall i, j :: 0 <= i < j < |r| && p(r[j]) ==> p(r[i])
  }
}
