/** Three-way comparators, as the sorted-sequence algorithms and xunique
    use them (Python's `cmp` and any caller-supplied replacement):
    negative, zero or positive. */
module Ordering {

  /** The comparator orders its type totally, up to ties: swapping the
      arguments swaps the sign, and "compares <= 0" is transitive. */
  ghost predicate TotalPreorder<T(!new)>(cmp: (T, T) -> int) {
    && (forall x, y :: cmp(x, y) < 0 <==> cmp(y, x) > 0)
    && (forall x, y, z :: cmp(x, y) <= 0 && cmp(y, z) <= 0 ==> cmp(x, z) <= 0)
  }

  /** Every element compares <= 0 with every later one. */
  ghost predicate Sorted<T>(cmp: (T, T) -> int, s: seq<T>) {
    forall i, j :: 0 <= i < j < |s| ==> cmp(s[i], s[j]) <= 0
  }

  /** Sorted with no two tying elements: a sorted set. */
  ghost predicate StrictlySorted<T>(cmp: (T, T) -> int, s: seq<T>) {
    forall i, j :: 0 <= i < j < |s| ==> cmp(s[i], s[j]) < 0
  }

  /** `h` compares <= 0 with every element of `s`. */
  ghost predicate Below<T>(cmp: (T, T) -> int, h: T, s: seq<T>) {
    forall i :: 0 <= i < |s| ==> cmp(h, s[i]) <= 0
  }

  lemma Reflexive<T(!new)>(cmp: (T, T) -> int, x: T)
    requires TotalPreorder(cmp)
    ensures cmp(x, x) == 0
  {
    assert cmp(x, x) < 0 <==> cmp(x, x) > 0;
  }

  lemma TieSymmetric<T(!new)>(cmp: (T, T) -> int, x: T, y: T)
    requires TotalPreorder(cmp)
    ensures cmp(x, y) == 0 <==> cmp(y, x) == 0
  {
    assert cmp(x, y) < 0 <==> cmp(y, x) > 0;
    assert cmp(y, x) < 0 <==> cmp(x, y) > 0;
  }

  /** x < y <= z gives x < z. */
  lemma LtLe<T(!new)>(cmp: (T, T) -> int, x: T, y: T, z: T)
    requires TotalPreorder(cmp)
    requires cmp(x, y) < 0 && cmp(y, z) <= 0
    ensures cmp(x, z) < 0
  {
    assert cmp(y, x) > 0;
    assert cmp(z, x) > 0;
  }

  /** x <= y < z gives x < z. */
  lemma LeLt<T(!new)>(cmp: (T, T) -> int, x: T, y: T, z: T)
    requires TotalPreorder(cmp)
    requires cmp(x, y) <= 0 && cmp(y, z) < 0
    ensures cmp(x, z) < 0
  {
    assert cmp(z, y) > 0;
    assert cmp(z, x) > 0;
  }

  /** Ties are transitive: comparing to zero is an equivalence. */
  lemma TieTransitive<T(!new)>(cmp: (T, T) -> int, x: T, y: T, z: T)
    requires TotalPreorder(cmp)
    requires cmp(x, y) == 0 && cmp(y, z) == 0
    ensures cmp(x, z) == 0
  {
    TieSymmetric(cmp, x, y);
    TieSymmetric(cmp, y, z);
    assert cmp(x, z) <= 0;
    assert cmp(z, x) <= 0;
    TieSymmetric(cmp, z, x);
  }

  /** The head of a sorted sequence is below all of it, and so is anything
      below the head. */
  lemma BelowSorted<T(!new)>(cmp: (T, T) -> int, h: T, s: seq<T>)
    requires TotalPreorder(cmp) && Sorted(cmp, s)
    requires s != [] && cmp(h, s[0]) <= 0
    ensures Below(cmp, h, s)
  {
    forall i | 0 <= i < |s|
      ensures cmp(h, s[i]) <= 0
    {
      if i > 0 {
        assert cmp(s[0], s[i]) <= 0;
      }
    }
  }

  /** A bound on every element of `a` and `b` bounds every element of a
      sequence whose elements all come from `a` or `b`. */
  lemma BelowDrawn<T>(cmp: (T, T) -> int, h: T, t: seq<T>, a: seq<T>, b: seq<T>)
    requires multiset(t) <= multiset(a) + multiset(b)
    requires Below(cmp, h, a) && Below(cmp, h, b)
    ensures Below(cmp, h, t)
  {
    forall i | 0 <= i < |t|
      ensures cmp(h, t[i]) <= 0
    {
      assert t[i] in multiset(t);
      assert t[i] in multiset(a) || t[i] in multiset(b);
    }
  }

  /** Putting a lower bound in front of a sorted sequence keeps it sorted. */
  lemma SortedCons<T>(cmp: (T, T) -> int, h: T, t: seq<T>)
    requires Sorted(cmp, t) && Below(cmp, h, t)
    ensures Sorted(cmp, [h] + t)
  {
    var s := [h] + t;
    forall i, j | 0 <= i < j < |s|
      ensures cmp(s[i], s[j]) <= 0
    {
      if i == 0 {
        assert s[j] == t[j - 1];
      } else {
        assert s[i] == t[i - 1] && s[j] == t[j - 1];
      }
    }
  }

  /** Python's built-in cmp on integers. */
  function IntCmp(x: int, y: int): int {
    if x < y then -1 else if x > y then 1 else 0
  }

  lemma IntCmpTotal()
    ensures TotalPreorder(IntCmp)
  {
  }
}
