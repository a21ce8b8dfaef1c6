/** The pull-based adapters of TBA/algorithms/xsorted.py. Each reads two
    inputs through their one-element buffers (xset_difference reads its
    first input directly) and produces, one pull at a time, exactly what
    the matching function of SortedSpec says. */
module Sorted {

  import opened SortedSpec
  import opened Base

  /** xmerge over two sorted inputs. */
  class MergeStream<T(0)> {
    const in0: SingleBuffer<T>
    const in1: SingleBuffer<T>
    const cmp: (T, T) -> int

    ghost predicate Valid()
      reads this, in0, in1, in0.src, in1.src
    {
      in0.Valid() && in1.Valid() && in0 != in1 && in0.src != in1.src
    }

    ghost function Output(): seq<T>
      reads this, in0, in1, in0.src, in1.src
      requires Valid()
    {
      Merge(cmp, in0.Output(), in1.Output())
    }

    constructor (input0: seq<T>, input1: seq<T>, comp: (T, T) -> int)
      ensures Valid() && cmp == comp
      ensures fresh(in0) && fresh(in1) && fresh(in0.src) && fresh(in1.src)
      ensures Output() == Merge(comp, input0, input1)
    {
      in0 := new SingleBuffer(input0);
      in1 := new SingleBuffer(input1);
      cmp := comp;
    }

    /** An exhausted first input hands over to the second; otherwise the
        second input's head goes first only when it compares strictly
        below the first's. */
    method Next() returns (r: Pull<T>)
      requires Valid()
      modifies in0, in1, in0.src, in1.src
      ensures Valid() && Pulled(old(Output()), r, Output())
    {
      var x := in0.Get();
      if x.Exhausted? {
        r := in1.Consume();
        return;
      }
      var y := in1.Get();
      if y.Exhausted? {
        var _ := in0.Next();
        return x;
      }
      if cmp(x.value, y.value) > 0 {
        var _ := in1.Next();
        r := y;
      } else {
        var _ := in0.Next();
        r := x;
      }
    }
  }

  /** xset_union over two sorted, unique inputs. */
  class UnionStream<T(0)> {
    const in0: SingleBuffer<T>
    const in1: SingleBuffer<T>
    const cmp: (T, T) -> int

    ghost predicate Valid()
      reads this, in0, in1, in0.src, in1.src
    {
      in0.Valid() && in1.Valid() && in0 != in1 && in0.src != in1.src
    }

    ghost function Output(): seq<T>
      reads this, in0, in1, in0.src, in1.src
      requires Valid()
    {
      Union(cmp, in0.Output(), in1.Output())
    }

    constructor (input0: seq<T>, input1: seq<T>, comp: (T, T) -> int)
      ensures Valid() && cmp == comp
      ensures fresh(in0) && fresh(in1) && fresh(in0.src) && fresh(in1.src)
      ensures Output() == Union(comp, input0, input1)
    {
      in0 := new SingleBuffer(input0);
      in1 := new SingleBuffer(input1);
      cmp := comp;
    }

    /** Like xmerge, except that tying heads are both consumed and only
        the first input's is produced. */
    method Next() returns (r: Pull<T>)
      requires Valid()
      modifies in0, in1, in0.src, in1.src
      ensures Valid() && Pulled(old(Output()), r, Output())
    {
      var x := in0.Get();
      if x.Exhausted? {
        r := in1.Consume();
        return;
      }
      var y := in1.Get();
      if y.Exhausted? {
        var _ := in0.Next();
        return x;
      }
      var c := cmp(x.value, y.value);
      if c > 0 {
        var _ := in1.Next();
        r := y;
      } else if c < 0 {
        var _ := in0.Next();
        r := x;
      } else {
        var _ := in0.Next();
        var _ := in1.Next();
        r := x;
      }
    }
  }

  /** xset_intersection over two sorted, unique inputs. */
  class IntersectionStream<T(0)> {
    const in0: SingleBuffer<T>
    const in1: SingleBuffer<T>
    const cmp: (T, T) -> int

    ghost predicate Valid()
      reads this, in0, in1, in0.src, in1.src
    {
      in0.Valid() && in1.Valid() && in0 != in1 && in0.src != in1.src
    }

    ghost function Output(): seq<T>
      reads this, in0, in1, in0.src, in1.src
      requires Valid()
    {
      Intersection(cmp, in0.Output(), in1.Output())
    }

    constructor (input0: seq<T>, input1: seq<T>, comp: (T, T) -> int)
      ensures Valid() && cmp == comp
      ensures fresh(in0) && fresh(in1) && fresh(in0.src) && fresh(in1.src)
      ensures Output() == Intersection(comp, input0, input1)
    {
      in0 := new SingleBuffer(input0);
      in1 := new SingleBuffer(input1);
      cmp := comp;
    }

    /** Advances whichever input has the smaller head until the heads tie;
        either input running out ends the stream. */
    method Next() returns (r: Pull<T>)
      requires Valid()
      modifies in0, in1, in0.src, in1.src
      ensures Valid() && Pulled(old(Output()), r, Output())
    {
      var x := in0.Get();
      if x.Exhausted? {
        return Exhausted;
      }
      var y := in1.Get();
      if y.Exhausted? {
        return Exhausted;
      }
      while true
        invariant Valid()
        invariant in0.valid && in0.Output() != [] && x == Some(in0.Output()[0])
        invariant in1.valid && in1.Output() != [] && y == Some(in1.Output()[0])
        invariant Intersection(cmp, in0.Output(), in1.Output()) == old(Output())
        decreases |in0.Output()| + |in1.Output()|
      {
        var c := cmp(x.value, y.value);
        if c > 0 {
          var _ := in1.Next();
          y := in1.Get();
          if y.Exhausted? {
            return Exhausted;
          }
        } else if c < 0 {
          var _ := in0.Next();
          x := in0.Get();
          if x.Exhausted? {
            return Exhausted;
          }
        } else {
          var _ := in0.Next();
          var _ := in1.Next();
          return x;
        }
      }
    }
  }

  /** xset_difference over two sorted, unique inputs. The first input is
      read without a buffer: the element under test is held in a local. */
  class DifferenceStream<T(0)> {
    const in0: Source<T>
    const in1: SingleBuffer<T>
    const cmp: (T, T) -> int

    ghost predicate Valid()
      reads this, in0, in1, in1.src
    {
      in0.Valid() && in1.Valid() && in0 != in1.src
    }

    ghost function Output(): seq<T>
      reads this, in0, in1, in1.src
      requires Valid()
    {
      Difference(cmp, in0.Output(), in1.Output())
    }

    constructor (input0: seq<T>, input1: seq<T>, comp: (T, T) -> int)
      ensures Valid() && cmp == comp
      ensures fresh(in0) && fresh(in1) && fresh(in1.src)
      ensures Output() == Difference(comp, input0, input1)
    {
      in0 := new Source(input0);
      in1 := new SingleBuffer(input1);
      cmp := comp;
    }

    /** Pulls an element from the first input and skips the second input
        past it; a tie drops both and tests the next element. */
    method Next() returns (r: Pull<T>)
      requires Valid()
      modifies in0, in1, in1.src
      ensures Valid() && Pulled(old(Output()), r, Output())
    {
      var p := in0.Next();
      if p.Exhausted? {
        return Exhausted;
      }
      var x := p.value;
      assert old(in0.Output()) == [x] + in0.Output();
      while true
        invariant Valid()
        invariant Difference(cmp, [x] + in0.Output(), in1.Output()) == old(Output())
        decreases |in0.Output()| + |in1.Output()|
      {
        var more;
        r, more, x := Step(x);
        if !more {
          return;
        }
      }
    }

    /** One round of next()'s loop with `x` pending from the first input:
        it is produced, or the second input's head is skipped, or a tie
        drops both and the first input's next element becomes pending. */
    method Step(x: T) returns (r: Pull<T>, more: bool, pending: T)
      requires Valid()
      modifies in0, in1, in1.src
      ensures Valid()
      ensures more ==> Difference(cmp, [pending] + in0.Output(), in1.Output())
                       == Difference(cmp, [x] + old(in0.Output()), old(in1.Output()))
      ensures more ==> |in0.Output()| + |in1.Output()| < old(|in0.Output()| + |in1.Output()|)
      ensures !more ==> Pulled(Difference(cmp, [x] + old(in0.Output()), old(in1.Output())), r, Output())
    {
      DifferenceFrom(cmp, x, in0.Output(), in1.Output());
      r, more, pending := Exhausted, true, x;
      var y := in1.Get();
      if y.Exhausted? {
        return Some(x), false, x;
      }
      var c := cmp(x, y.value);
      if c > 0 {
        var _ := in1.Next();
      } else if c < 0 {
        return Some(x), false, x;
      } else {
        ghost var rest := in0.Output();
        var p := in0.Next();
        if p.Exhausted? {
          return Exhausted, false, x;
        }
        assert rest == [p.value] + in0.Output();
        pending := p.value;
        var _ := in1.Next();
      }
    }
  }

  /** xset_symmetric_difference over two sorted, unique inputs. */
  class SymmetricDifferenceStream<T(0)> {
    const in0: SingleBuffer<T>
    const in1: SingleBuffer<T>
    const cmp: (T, T) -> int

    ghost predicate Valid()
      reads this, in0, in1, in0.src, in1.src
    {
      in0.Valid() && in1.Valid() && in0 != in1 && in0.src != in1.src
    }

    ghost function Output(): seq<T>
      reads this, in0, in1, in0.src, in1.src
      requires Valid()
    {
      SymmetricDifference(cmp, in0.Output(), in1.Output())
    }

    constructor (input0: seq<T>, input1: seq<T>, comp: (T, T) -> int)
      ensures Valid() && cmp == comp
      ensures fresh(in0) && fresh(in1) && fresh(in0.src) && fresh(in1.src)
      ensures Output() == SymmetricDifference(comp, input0, input1)
    {
      in0 := new SingleBuffer(input0);
      in1 := new SingleBuffer(input1);
      cmp := comp;
    }

    /** Produces the smaller head; tying heads are both dropped and the
        loop looks at the next pair. */
    method Next() returns (r: Pull<T>)
      requires Valid()
      modifies in0, in1, in0.src, in1.src
      ensures Valid() && Pulled(old(Output()), r, Output())
    {
      while true
        invariant Valid()
        invariant SymmetricDifference(cmp, in0.Output(), in1.Output()) == old(Output())
        decreases |in0.Output()| + |in1.Output()|
      {
        var x := in0.Get();
        if x.Exhausted? {
          r := in1.Consume();
          return;
        }
        var y := in1.Get();
        if y.Exhausted? {
          var _ := in0.Next();
          return x;
        }
        var c := cmp(x.value, y.value);
        if c > 0 {
          var _ := in1.Next();
          return y;
        } else if c < 0 {
          var _ := in0.Next();
          return x;
        } else {
          var _ := in0.Next();
          var _ := in1.Next();
        }
      }
    }
  }
}
