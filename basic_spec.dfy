/** What the adapters of TBA/algorithms/xbasic.py produce, as functions of
    what their inputs still hold. Each function follows the adapter's
    pull-by-pull behaviour; the lemmas state what that output is. */
module BasicSpec {

  import opened Ordering

  function Max(a: int, b: int): int { if a < b then b else a }
  function Min(a: int, b: int): int { if a < b then a else b }

  /* ---------- xcat ---------- */

  /** The inputs end to end, each exhausted before the next starts. */
  function Concat<T>(ss: seq<seq<T>>): (r: seq<T>)
    ensures forall j :: 0 <= j < |ss| ==> |ss[j]| <= |r|
  {
    if ss == [] then [] else ss[0] + Concat(ss[1..])
  }

  function TotalLength<T>(ss: seq<seq<T>>): nat {
    if ss == [] then 0 else |ss[0]| + TotalLength(ss[1..])
  }

  /** Concatenating two groups of inputs is concatenating their outputs. */
  lemma {:induction false} ConcatAppend<T>(ss: seq<seq<T>>, tt: seq<seq<T>>)
    ensures Concat(ss + tt) == Concat(ss) + Concat(tt)
  {
    if ss == [] {
      assert ss + tt == tt;
    } else {
      assert (ss + tt)[1..] == ss[1..] + tt;
      ConcatAppend(ss[1..], tt);
    }
  }

  /** Concatenating the inputs from `k` on: input `k`, then the rest. */
  lemma ConcatFrom<T>(ss: seq<seq<T>>, k: nat)
    requires k < |ss|
    ensures Concat(ss[k..]) == ss[k] + Concat(ss[k + 1..])
  {
    assert ss[k..][1..] == ss[k + 1..];
  }

  /** The output is as long as all inputs together, and element k of
      input j sits after everything from the inputs before j. */
  lemma {:induction false} ConcatLength<T>(ss: seq<seq<T>>)
    ensures |Concat(ss)| == TotalLength(ss)
  {
    if ss != [] {
      ConcatLength(ss[1..]);
    }
  }

  lemma {:induction false} ConcatAt<T>(ss: seq<seq<T>>, j: nat, k: nat)
    requires j < |ss| && k < |ss[j]|
    ensures TotalLength(ss[..j]) + k < |Concat(ss)|
    ensures Concat(ss)[TotalLength(ss[..j]) + k] == ss[j][k]
  {
    ConcatLength(ss);
    ConcatLength(ss[1..]);
    if j > 0 {
      assert ss[..j][1..] == ss[1..][..j - 1];
      ConcatAt(ss[1..], j - 1, k);
    }
  }

  /* ---------- xfilter ---------- */

  /** The elements that pass `p`, in their input order. */
  function Filter<T>(p: T -> bool, s: seq<T>): (r: seq<T>)
    ensures |r| <= |s|
    ensures forall x :: x in r ==> p(x)
  {
    if s == [] then []
    else (if p(s[0]) then [s[0]] else []) + Filter(p, s[1..])
  }

  /** Filtering distributes over concatenation: a failing element does not
      end the output, and order is kept. */
  lemma {:induction false} FilterAppend<T>(p: T -> bool, a: seq<T>, b: seq<T>)
    ensures Filter(p, a + b) == Filter(p, a) + Filter(p, b)
  {
    if a == [] {
      assert a + b == b;
    } else {
      assert (a + b)[0] == a[0] && (a + b)[1..] == a[1..] + b;
      FilterAppend(p, a[1..], b);
    }
  }

  /** Each value occurs in the output as often as in the input if it
      passes, and not at all otherwise. */
  lemma {:induction false} FilterCount<T>(p: T -> bool, s: seq<T>, x: T)
    ensures multiset(Filter(p, s))[x] == if p(x) then multiset(s)[x] else 0
  {
    if s != [] {
      FilterCount(p, s[1..], x);
      assert s == [s[0]] + s[1..];
    }
  }

  /** An input whose elements all pass comes out unchanged. */
  lemma {:induction false} FilterAllPass<T>(p: T -> bool, s: seq<T>)
    requires forall i :: 0 <= i < |s| ==> p(s[i])
    ensures Filter(p, s) == s
  {
    if s != [] {
      FilterAllPass(p, s[1..]);
    }
  }

  /** An input none of whose elements passes comes out empty. */
  lemma {:induction false} FilterNonePass<T>(p: T -> bool, s: seq<T>)
    requires forall i :: 0 <= i < |s| ==> !p(s[i])
    ensures Filter(p, s) == []
  {
    if s != [] {
      FilterNonePass(p, s[1..]);
    }
  }

  /** A run of passing elements between failing ones is all that is kept. */
  lemma FilterBetween<T>(p: T -> bool, a: seq<T>, m: seq<T>, c: seq<T>)
    requires forall i :: 0 <= i < |a| ==> !p(a[i])
    requires forall i :: 0 <= i < |m| ==> p(m[i])
    requires forall i :: 0 <= i < |c| ==> !p(c[i])
    ensures Filter(p, a + m + c) == m
  {
    FilterAppend(p, a + m, c);
    FilterAppend(p, a, m);
    FilterNonePass(p, a);
    FilterNonePass(p, c);
    FilterAllPass(p, m);
  }

  /* ---------- xmap, xmap_trim ---------- */

  /** What is left of one input after one pull. */
  function TailOf<T>(s: seq<T>): seq<T> {
    if s == [] then [] else s[1..]
  }

  /** Every input after one pull each. */
  function Tails<T>(ss: seq<seq<T>>): (r: seq<seq<T>>)
    ensures |r| == |ss|
  {
    seq(|ss|, j requires 0 <= j < |ss| => TailOf(ss[j]))
  }

  /** The i-th element of every input, `replace` for an input that is
      shorter. */
  function Column<T>(ss: seq<seq<T>>, i: nat, replace: T): (r: seq<T>)
    ensures |r| == |ss|
  {
    seq(|ss|, j requires 0 <= j < |ss| => if i < |ss[j]| then ss[j][i] else replace)
  }

  /** The i-th element of every input, all of them long enough. */
  function Row<T>(ss: seq<seq<T>>, i: nat): (r: seq<T>)
    requires forall j :: 0 <= j < |ss| ==> i < |ss[j]|
    ensures |r| == |ss|
  {
    seq(|ss|, j requires 0 <= j < |ss| => ss[j][i])
  }

  /** The length of the longest input (0 for no inputs). */
  function MaxLength<T>(ss: seq<seq<T>>): (m: nat)
    ensures forall j :: 0 <= j < |ss| ==> |ss[j]| <= m
    ensures ss != [] ==> exists j :: 0 <= j < |ss| && |ss[j]| == m
    ensures ss == [] ==> m == 0
  {
    if ss == [] then 0 else Max(|ss[0]|, MaxLength(ss[1..]))
  }

  /** The length of the shortest input. */
  function MinLength<T>(ss: seq<seq<T>>): (m: nat)
    requires ss != []
    ensures forall j :: 0 <= j < |ss| ==> m <= |ss[j]|
    ensures exists j :: 0 <= j < |ss| && |ss[j]| == m
  {
    if |ss| == 1 then |ss[0]| else Min(|ss[0]|, MinLength(ss[1..]))
  }

  /** One pull of every input shortens the longest one by one. */
  lemma MaxLengthTails<T>(ss: seq<seq<T>>)
    requires MaxLength(ss) > 0
    ensures MaxLength(Tails(ss)) == MaxLength(ss) - 1
  {
    var j :| 0 <= j < |ss| && |ss[j]| == MaxLength(ss);
    assert |Tails(ss)[j]| == MaxLength(ss) - 1;
  }

  lemma MinLengthTails<T>(ss: seq<seq<T>>)
    requires ss != [] && MinLength(ss) > 0
    ensures MinLength(Tails(ss)) == MinLength(ss) - 1
  {
    var t := Tails(ss);
    var j :| 0 <= j < |t| && |t[j]| == MinLength(t);
    var k :| 0 <= k < |ss| && |ss[k]| == MinLength(ss);
    assert |t[j]| == |ss[j]| - 1;
    assert |t[k]| == |ss[k]| - 1;
  }

  /** xmap: `f` of the first elements of all inputs, `replace` standing in
      for exhausted ones, until every input is exhausted. */
  function ZipLongest<T, U>(f: seq<T> -> U, replace: T, ss: seq<seq<T>>): (r: seq<U>)
    ensures |r| == MaxLength(ss)
    decreases MaxLength(ss)
  {
    if MaxLength(ss) == 0 then []
    else
      MaxLengthTails(ss);
      [f(Column(ss, 0, replace))] + ZipLongest(f, replace, Tails(ss))
  }

  lemma ColumnTails<T>(ss: seq<seq<T>>, i: nat, replace: T)
    ensures Column(Tails(ss), i, replace) == Column(ss, i + 1, replace)
  {
  }

  /** While some input is not exhausted, xmap's output is `f` of the
      first column followed by the output over the tails. */
  lemma ZipLongestCons<T, U>(f: seq<T> -> U, replace: T, ss: seq<seq<T>>)
    requires MaxLength(ss) > 0
    ensures ZipLongest(f, replace, ss) == [f(Column(ss, 0, replace))] + ZipLongest(f, replace, Tails(ss))
  {
  }

  /** Element i of xmap's output is `f` of the i-th elements, with
      `replace` for every input shorter than i + 1. */
  lemma {:induction false} ZipLongestAt<T, U>(f: seq<T> -> U, replace: T, ss: seq<seq<T>>, i: nat)
    requires i < MaxLength(ss)
    ensures ZipLongest(f, replace, ss)[i] == f(Column(ss, i, replace))
    decreases i
  {
    ZipLongestCons(f, replace, ss);
    if i > 0 {
      MaxLengthTails(ss);
      ZipLongestAt(f, replace, Tails(ss), i - 1);
      ColumnTails(ss, i - 1, replace);
    }
  }

  /** xmap_trim: `f` of the first elements of all inputs until any input
      is exhausted. */
  function ZipShortest<T, U>(f: seq<T> -> U, ss: seq<seq<T>>): (r: seq<U>)
    requires ss != []
    ensures |r| == MinLength(ss)
    decreases MinLength(ss)
  {
    if MinLength(ss) == 0 then []
    else
      MinLengthTails(ss);
      [f(Row(ss, 0))] + ZipShortest(f, Tails(ss))
  }

  /** An exhausted input ends xmap_trim's output at once. */
  lemma ZipShortestExhausted<T, U>(f: seq<T> -> U, ss: seq<seq<T>>, k: nat)
    requires k < |ss| && ss[k] == []
    ensures ZipShortest(f, ss) == []
  {
    assert MinLength(ss) <= |ss[k]|;
  }

  /** With every input non-empty, xmap_trim's output starts with `f` of
      the heads and goes on with the tails. */
  lemma ZipShortestStep<T, U>(f: seq<T> -> U, ss: seq<seq<T>>)
    requires ss != [] && forall j :: 0 <= j < |ss| ==> ss[j] != []
    ensures MinLength(ss) > 0
    ensures ZipShortest(f, ss) == [f(Row(ss, 0))] + ZipShortest(f, Tails(ss))
  {
    var k :| 0 <= k < |ss| && |ss[k]| == MinLength(ss);
    assert ss[k] != [];
  }

  /** Element i of xmap_trim's output is `f` of the i-th elements. */
  lemma {:induction false} ZipShortestAt<T, U>(f: seq<T> -> U, ss: seq<seq<T>>, i: nat)
    requires ss != [] && i < MinLength(ss)
    ensures forall j :: 0 <= j < |ss| ==> i < |ss[j]|
    ensures ZipShortest(f, ss)[i] == f(Row(ss, i))
    decreases i
  {
    if i > 0 {
      MinLengthTails(ss);
      ZipShortestAt(f, Tails(ss), i - 1);
      assert Row(Tails(ss), i - 1) == Row(ss, i);
    }
  }

  /* ---------- xunique ---------- */

  /** Drops the leading elements of `s` that tie with `x`. */
  function SkipRun<T>(cmp: (T, T) -> int, x: T, s: seq<T>): (r: seq<T>)
    ensures |r| <= |s| && r == s[|s| - |r|..]
    ensures r != [] ==> cmp(x, r[0]) != 0
  {
    if s != [] && cmp(x, s[0]) == 0 then SkipRun(cmp, x, s[1..]) else s
  }

  /** xunique: emit an element, then skip everything that ties with it. */
  function Unique<T>(cmp: (T, T) -> int, s: seq<T>): (r: seq<T>)
    ensures |r| <= |s|
    ensures s != [] ==> r != [] && r[0] == s[0]
    decreases |s|
  {
    if s == [] then []
    else [s[0]] + Unique(cmp, SkipRun(cmp, s[0], s[1..]))
  }

  /** Every element xunique yields is taken from its input. */
  lemma {:induction false} UniqueDrawn<T>(cmp: (T, T) -> int, s: seq<T>)
    ensures multiset(Unique(cmp, s)) <= multiset(s)
    decreases |s|
  {
    if s != [] {
      var rest := SkipRun(cmp, s[0], s[1..]);
      UniqueDrawn(cmp, rest);
      SuffixDrawn(s, rest);
      assert Unique(cmp, s) == [s[0]] + Unique(cmp, rest);
      assert multiset(Unique(cmp, s)) == multiset([s[0]]) + multiset(Unique(cmp, rest));
      assert multiset([s[0]] + rest) == multiset([s[0]]) + multiset(rest);
    }
  }

  /** A suffix of the tail of `s`, with the head of `s` in front, is
      drawn from `s`. */
  lemma SuffixDrawn<T>(s: seq<T>, rest: seq<T>)
    requires s != [] && |rest| < |s| && rest == s[|s| - |rest|..]
    ensures multiset([s[0]] + rest) <= multiset(s)
  {
    var k := |s| - |rest|;
    assert s == s[..k] + rest;
    assert s[..k] == [s[0]] + s[1..k];
  }

  /** The elements of `t` that do not tie with their predecessor (the
      first one's predecessor being `prev`). */
  function Changes<T>(cmp: (T, T) -> int, prev: T, t: seq<T>): seq<T> {
    if t == [] then []
    else (if cmp(prev, t[0]) != 0 then [t[0]] else []) + Changes(cmp, t[0], t[1..])
  }

  /** Run compression: the first element of every maximal run of tying
      neighbours. */
  function RunHeads<T>(cmp: (T, T) -> int, s: seq<T>): seq<T> {
    if s == [] then [] else [s[0]] + Changes(cmp, s[0], s[1..])
  }

  /** No element of `s` ties with the one after it. */
  predicate NoTiedNeighbours<T>(cmp: (T, T) -> int, s: seq<T>)
    decreases |s|
  {
    |s| < 2 || (cmp(s[0], s[1]) != 0 && NoTiedNeighbours(cmp, s[1..]))
  }

  /** The neighbour condition, index by index. */
  lemma {:induction false} NoTiedNeighboursAt<T>(cmp: (T, T) -> int, s: seq<T>, i: nat)
    requires NoTiedNeighbours(cmp, s) && i + 1 < |s|
    ensures cmp(s[i], s[i + 1]) != 0
    decreases i
  {
    if i > 0 {
      NoTiedNeighboursAt(cmp, s[1..], i - 1);
    }
  }

  /** No two neighbours in xunique's output tie. */
  lemma {:induction false} UniqueNoTiedNeighbours<T>(cmp: (T, T) -> int, s: seq<T>)
    ensures NoTiedNeighbours(cmp, Unique(cmp, s))
    decreases |s|
  {
    if s != [] {
      var rest := SkipRun(cmp, s[0], s[1..]);
      var u := Unique(cmp, rest);
      UniqueNoTiedNeighbours(cmp, rest);
      assert Unique(cmp, s) == [s[0]] + u;
      assert ([s[0]] + u)[1..] == u;
    }
  }

  /** An input without tying neighbours passes through unchanged. */
  lemma {:induction false} UniquePassThrough<T>(cmp: (T, T) -> int, s: seq<T>)
    requires NoTiedNeighbours(cmp, s)
    ensures Unique(cmp, s) == s
    decreases |s|
  {
    if s != [] {
      var t := s[1..];
      UniquePassThrough(cmp, t);
      assert SkipRun(cmp, s[0], t) == t;
      assert Unique(cmp, s) == [s[0]] + t;
      assert [s[0]] + t == s;
    }
  }

  /** For a comparator whose ties are an equivalence, xunique keeps exactly
      the first element of each run of tying neighbours. */
  lemma UniqueIsRunHeads<T(!new)>(cmp: (T, T) -> int, s: seq<T>)
    requires TotalPreorder(cmp)
    ensures Unique(cmp, s) == RunHeads(cmp, s)
  {
    if s != [] {
      SkipRunChanges(cmp, s[0], s[1..]);
    }
  }

  lemma {:induction false} SkipRunChanges<T(!new)>(cmp: (T, T) -> int, x: T, t: seq<T>)
    requires TotalPreorder(cmp)
    ensures Unique(cmp, SkipRun(cmp, x, t)) == Changes(cmp, x, t)
    decreases |t|
  {
    if t != [] {
      if cmp(x, t[0]) == 0 {
        SkipRunChanges(cmp, x, t[1..]);
        ChangesOfTie(cmp, x, t[0], t[1..]);
      } else {
        SkipRunChanges(cmp, t[0], t[1..]);
      }
    }
  }

  /** Changes only depends on the predecessor up to a tie. */
  lemma ChangesOfTie<T(!new)>(cmp: (T, T) -> int, x: T, y: T, t: seq<T>)
    requires TotalPreorder(cmp) && cmp(x, y) == 0
    ensures Changes(cmp, x, t) == Changes(cmp, y, t)
  {
    if t != [] {
      TieSymmetric(cmp, x, y);
      if cmp(x, t[0]) == 0 {
        TieTransitive(cmp, y, x, t[0]);
      }
      if cmp(y, t[0]) == 0 {
        TieTransitive(cmp, x, y, t[0]);
      }
    }
  }

  /* ---------- xhead, xtail, xfill ---------- */

  /** xhead: pass one element per pull while the bound, decremented on
      every pull, is positive. */
  function Take<T>(s: seq<T>, n: int): (r: seq<T>)
    ensures |r| == Min(Max(n, 0), |s|)
    decreases Max(n, 0)
  {
    if n <= 0 || s == [] then [] else [s[0]] + Take(s[1..], n - 1)
  }

  /** xhead yields the first `n` elements, or the whole input if it is
      shorter. */
  lemma {:induction false} TakePrefix<T>(s: seq<T>, n: int)
    ensures Take(s, n) == s[..Min(Max(n, 0), |s|)]
    decreases Max(n, 0)
  {
    if n > 0 && s != [] {
      TakePrefix(s[1..], n - 1);
      assert s[..Min(n, |s|)] == [s[0]] + s[1..][..Min(n - 1, |s| - 1)];
    }
  }

  /** xtail: skip while the bound, decremented on every skip, is positive. */
  function Drop<T>(s: seq<T>, n: int): (r: seq<T>)
    ensures |r| == |s| - Min(Max(n, 0), |s|)
    decreases Max(n, 0)
  {
    if n <= 0 || s == [] then s else Drop(s[1..], n - 1)
  }

  /** xtail yields the input after its first `n` elements, nothing if it
      is shorter. */
  lemma {:induction false} DropSuffix<T>(s: seq<T>, n: int)
    ensures Drop(s, n) == s[Min(Max(n, 0), |s|)..]
    decreases Max(n, 0)
  {
    if n > 0 && s != [] {
      DropSuffix(s[1..], n - 1);
      assert s[1..][Min(n - 1, |s| - 1)..] == s[Min(n, |s|)..];
    }
  }

  /** xfill: while the bound is positive, one element per pull, the fill
      value once the input is exhausted. */
  function Fill<T>(s: seq<T>, n: int, fill: T): (r: seq<T>)
    ensures |r| == Max(n, 0)
    ensures forall i :: 0 <= i < |r| ==> r[i] == if i < |s| then s[i] else fill
    decreases Max(n, 0)
  {
    if n <= 0 then []
    else if s == [] then [fill] + Fill(s, n - 1, fill)
    else [s[0]] + Fill(s[1..], n - 1, fill)
  }

  /** xhead and xtail split the input between them. */
  lemma TakeDrop<T>(s: seq<T>, n: int)
    ensures Take(s, n) + Drop(s, n) == s
  {
  }

  /** xfill truncates: with a bound below the input's length the output is
      the first `n` elements, not the whole input. */
  lemma FillTruncates()
    ensures Fill([1, 1, 2, 3], 2, 0) == [1, 1]
    ensures Fill([1, 1, 2, 3], 9, 0) == [1, 1, 2, 3, 0, 0, 0, 0, 0]
  {
  }

  /** The whole input survives xfill exactly when the bound is at least
      the input's length. */
  lemma FillKeepsInput<T>(s: seq<T>, n: int, fill: T)
    ensures s <= Fill(s, n, fill) <==> |s| <= Max(n, 0)
  {
    var r := Fill(s, n, fill);
    if |s| <= Max(n, 0) {
      assert r[..|s|] == s;
    }
  }

  /* ---------- examples from the docstrings and the test suite ---------- */

  /** xcat's first documented example. */
  lemma CatExampleTwoInputs()
    ensures Concat([[1, 3, 5], [2, 4, 6]]) == [1, 3, 5, 2, 4, 6]
  {
    ConcatAppend([[1, 3, 5]], [[2, 4, 6]]);
    assert [[1, 3, 5], [2, 4, 6]] == [[1, 3, 5]] + [[2, 4, 6]];
  }

  /** An empty input in the middle contributes nothing. */
  lemma CatExampleEmptyMiddle()
    ensures Concat([[2, 5, 8], [], [1, 4, 7]]) == [2, 5, 8, 1, 4, 7]
  {
    ConcatAppend([[2, 5, 8], []], [[1, 4, 7]]);
    ConcatAppend([[2, 5, 8]], [[]]);
    assert [[2, 5, 8], [], [1, 4, 7]] == [[2, 5, 8], []] + [[1, 4, 7]];
    assert [[2, 5, 8], []] == [[2, 5, 8]] + [[]];
  }

  /** The test suite's predicate for xfilter. */
  predicate Above3(x: int) {
    x > 3
  }

  /** xfilter with "greater than 3": only the middle run passes. */
  lemma FilterExample()
    ensures Filter(Above3, [2, 3, 4, 5, 6, 5, 4, 3, 2]) == [4, 5, 6, 5, 4]
  {
    FilterBetween(Above3, [2, 3], [4, 5, 6, 5, 4], [3, 2]);
    assert [2, 3] + [4, 5, 6, 5, 4] + [3, 2] == [2, 3, 4, 5, 6, 5, 4, 3, 2];
  }

  /** xhead and xtail's documented results. */
  lemma HeadTailExamples()
    ensures Take([1, 1, 2, 3], 2) == [1, 1] && Take([1, 1, 2, 3], 9) == [1, 1, 2, 3]
    ensures Drop([1, 1, 2, 3], 2) == [2, 3] && Drop([1, 1, 2, 3], 9) == []
  {
  }

  /** xunique on the test suite's inputs: a run collapses to its first
      element. */
  lemma UniqueExampleRun()
    ensures Unique(IntCmp, [3, 3, 5]) == [3, 5]
  {
    IntCmpTotal();
    UniqueIsRunHeads(IntCmp, [3, 3, 5]);
    assert [3, 3, 5][1..] == [3, 5] && [3, 5][1..] == [5] && [5][1..] == [];
    assert Changes(IntCmp, 3, [5]) == [5];
  }

  /** Equal values that are not adjacent both stay. */
  lemma UniqueExampleApart()
    ensures Unique(IntCmp, [3, 5, 3]) == [3, 5, 3]
  {
    var s := [3, 5, 3];
    assert s[1..] == [5, 3] && s[1..][1..] == [3];
    UniquePassThrough(IntCmp, s);
  }

  /** The test suite's sum over any number of inputs. */
  function Sum(s: seq<int>): int {
    if s == [] then 0 else s[0] + Sum(s[1..])
  }

  /** xmap over an input of three elements and one of one element. */
  lemma ZipLongestThreeOne<T, U>(f: seq<T> -> U, replace: T, a: seq<T>, b: seq<T>)
    requires |a| == 3 && |b| == 1
    ensures ZipLongest(f, replace, [a, b]) ==
              [f([a[0], b[0]]), f([a[1], replace]), f([a[2], replace])]
  {
    var ss := [a, b];
    assert MaxLength(ss) == 3;
    ZipLongestAt(f, replace, ss, 0);
    ZipLongestAt(f, replace, ss, 1);
    ZipLongestAt(f, replace, ss, 2);
    assert Column(ss, 0, replace) == [a[0], b[0]];
    assert Column(ss, 1, replace) == [a[1], replace];
    assert Column(ss, 2, replace) == [a[2], replace];
  }

  /** xmap with `replace` 0 sums element-wise and lets the longer input
      run on. */
  lemma MapExampleLongest()
    ensures ZipLongest(Sum, 0, [[3, 1, 2], [3]]) == [6, 1, 2]
  {
    ZipLongestThreeOne(Sum, 0, [3, 1, 2], [3]);
    assert Sum([3, 3]) == 6 && Sum([1, 0]) == 1 && Sum([2, 0]) == 2;
  }

  function Product(s: seq<int>): int {
    if s == [] then 1 else s[0] * Product(s[1..])
  }

  /** xmap_trim multiplying [2, 3] and [5, 7, 11] stops with the shorter
      input. */
  lemma MapExampleShortest()
    ensures ZipShortest(Product, [[2, 3], [5, 7, 11]]) == [10, 21]
  {
    var ss := [[2, 3], [5, 7, 11]];
    assert MinLength(ss) == 2;
    ZipShortestAt(Product, ss, 0);
    ZipShortestAt(Product, ss, 1);
    assert Row(ss, 0) == [2, 5] && Row(ss, 1) == [3, 7];
    assert Product([2, 5]) == 10 && Product([3, 7]) == 21;
  }
}
