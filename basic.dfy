/** The pull-based adapters of TBA/algorithms/xbasic.py. Each class keeps
    the state its Python counterpart keeps between pulls; its Output() is
    what it will still produce, given by a function of BasicSpec, and every
    Next() yields the head of that output and leaves the rest. */
module Basic {

  import opened BasicSpec
  import opened Base

  /** xcat: the inputs end to end; `which` indexes the input being read. */
  class CatStream<T> {
    const inputs: seq<Source<T>>
    var which: nat

    ghost predicate Valid()
      reads this, inputs
    {
      && which <= |inputs| && AllValid(inputs) && Distinct(inputs)
      && forall j :: 0 <= j < which ==> inputs[j].Output() == []
    }

    /** Only the inputs from `which` on can still contribute. */
    ghost function Output(): seq<T>
      reads this, inputs
      requires Valid()
    {
      Concat(Outputs(inputs)[which..])
    }

    constructor (ins: seq<seq<T>>)
      ensures Valid() && which == 0 && Output() == Concat(ins)
      ensures forall j :: 0 <= j < |inputs| ==> fresh(inputs[j])
    {
      var srcs := NewSources(ins);
      inputs, which := srcs, 0;
      assert Outputs(srcs)[0..] == ins;
    }

    /** Pulls from the current input, moving on to the next one whenever
        it signals exhaustion; `which` never goes back. */
    method Next() returns (r: Pull<T>)
      requires Valid()
      modifies this, inputs
      ensures Valid() && Pulled(old(Output()), r, Output())
      ensures old(which) <= which
    {
      ghost var target := Output();
      while true
        invariant Valid() && old(which) <= which
        invariant Output() == target
        decreases |inputs| - which
      {
        if which == |inputs| {
          return Exhausted;
        }
        var p := PullCurrent();
        if p.Some? {
          return p;
        }
      }
    }

    /** One pull from the current input: an element of the stream, or the
        exhaustion of that input, after which the next one is current. */
    method PullCurrent() returns (p: Pull<T>)
      requires Valid() && which < |inputs|
      modifies this, inputs[which]
      ensures Valid()
      ensures p.Some? ==> which == old(which) && Pulled(old(Output()), p, Output())
      ensures p.Exhausted? ==> which == old(which) + 1 && Output() == old(Output())
    {
      ghost var before := Outputs(inputs);
      p := PullOne(inputs, which);
      CatPulled(before, Outputs(inputs), which, p);
      if p.Exhausted? {
        which := which + 1;
      }
    }
  }

  /** xfilter with a predicate: the elements that pass, in order. */
  class FilterStream<T> {
    const input: Source<T>
    const pred: T -> bool

    ghost predicate Valid()
      reads this, input
    {
      input.Valid()
    }

    ghost function Output(): seq<T>
      reads this, input
      requires Valid()
    {
      Filter(pred, input.Output())
    }

    constructor (p: T -> bool, s: seq<T>)
      ensures Valid() && fresh(input) && pred == p && Output() == Filter(p, s)
    {
      input := new Source(s);
      pred := p;
    }

    /** Pulls until an element passes or the input runs out. */
    method Next() returns (r: Pull<T>)
      requires Valid()
      modifies input
      ensures Valid() && Pulled(old(Output()), r, Output())
    {
      while true
        invariant Valid() && Output() == old(Output())
        decreases |input.Output()|
      {
        var p := input.Next();
        if p.Exhausted? {
          return Exhausted;
        }
        if pred(p.value) {
          return p;
        }
      }
    }
  }

  /** xmap: `f` applied to one element from every input, `replace` standing
      in for an exhausted input, until all inputs are exhausted. */
  class MapStream<T, U> {
    const inputs: seq<Source<T>>
    const f: seq<T> -> U
    const replace: T

    ghost predicate Valid()
      reads this, inputs
    {
      AllValid(inputs) && Distinct(inputs)
    }

    ghost function Output(): seq<U>
      reads this, inputs
      requires Valid()
    {
      ZipLongest(f, replace, Outputs(inputs))
    }

    constructor (func: seq<T> -> U, replacement: T, ins: seq<seq<T>>)
      ensures Valid() && f == func && replace == replacement
      ensures forall j :: 0 <= j < |inputs| ==> fresh(inputs[j])
      ensures Output() == ZipLongest(func, replacement, ins)
    {
      var srcs := NewSources(ins);
      inputs, f, replace := srcs, func, replacement;
    }

    /** Pulls every input once; ends the stream only when none of them
        produced an element. */
    method Next() returns (r: Pull<U>)
      requires Valid()
      modifies inputs
      ensures Valid() && Pulled(old(Output()), r, Output())
    {
      ghost var before := Outputs(inputs);
      var dataSet, done := PullColumn();
      if done {
        assert Tails(before) == before;
        return Exhausted;
      }
      MaxLengthTails(before);
      return Some(f(dataSet));
    }

    /** One pull of every input, in order: `dataSet` holds what each
        produced, `replace` for the exhausted ones, and `done` says that
        all of them were exhausted. */
    method PullColumn() returns (dataSet: seq<T>, done: bool)
      requires Valid()
      modifies inputs
      ensures Valid()
      ensures dataSet == Column(old(Outputs(inputs)), 0, replace)
      ensures Outputs(inputs) == Tails(old(Outputs(inputs)))
      ensures done <==> MaxLength(old(Outputs(inputs))) == 0
    {
      ghost var before := Outputs(inputs);
      done, dataSet := true, [];
      for i := 0 to |inputs|
        invariant AllValid(inputs)
        invariant dataSet == Column(before, 0, replace)[..i]
        invariant forall j :: 0 <= j < i ==> inputs[j].Output() == TailOf(before[j])
        invariant forall j :: i <= j < |inputs| ==> inputs[j].Output() == before[j]
        invariant done <==> forall j :: 0 <= j < i ==> before[j] == []
      {
        assert forall j :: 0 <= j < |inputs| && j != i ==> inputs[j] != inputs[i];
        var p := inputs[i].Next();
        if p.Some? {
          dataSet := dataSet + [p.value];
          done := false;
        } else {
          dataSet := dataSet + [replace];
        }
      }
      assert Outputs(inputs) == Tails(before);
      assert dataSet == Column(before, 0, replace);
      if !done {
        ghost var j :| 0 <= j < |before| && before[j] != [];
        assert |before[j]| <= MaxLength(before);
      }
    }
  }

  /** xmap_trim: `f` applied to one element from every input, until any
      input is exhausted. */
  class MapTrimStream<T, U> {
    const inputs: seq<Source<T>>
    const f: seq<T> -> U

    ghost predicate Valid()
      reads this, inputs
    {
      inputs != [] && AllValid(inputs) && Distinct(inputs)
    }

    ghost function Output(): seq<U>
      reads this, inputs
      requires Valid()
    {
      ZipShortest(f, Outputs(inputs))
    }

    constructor (func: seq<T> -> U, ins: seq<seq<T>>)
      requires ins != []
      ensures Valid() && f == func
      ensures forall j :: 0 <= j < |inputs| ==> fresh(inputs[j])
      ensures Output() == ZipShortest(func, ins)
    {
      var srcs := NewSources(ins);
      inputs, f := srcs, func;
    }

    /** Pulls the inputs in order, stopping at the first one that signals
        exhaustion (`k` names it); when none does, every input has lost
        its head and `dataSet` holds those heads. */
    method PullHeads() returns (dataSet: seq<T>, ok: bool, ghost k: nat)
      requires Valid()
      modifies inputs
      ensures Valid()
      ensures ok ==> forall j :: 0 <= j < |inputs| ==> old(Outputs(inputs))[j] != []
      ensures ok ==> dataSet == Row(old(Outputs(inputs)), 0) && Outputs(inputs) == Tails(old(Outputs(inputs)))
      ensures !ok ==> k < |inputs| && old(Outputs(inputs))[k] == [] && Outputs(inputs)[k] == []
      ensures !ok ==> forall j :: 0 <= j < k ==>
        old(Outputs(inputs))[j] != [] && Outputs(inputs)[j] == old(Outputs(inputs))[j][1..]
      ensures !ok ==> forall j :: k < j < |inputs| ==> Outputs(inputs)[j] == old(Outputs(inputs))[j]
    {
      ghost var before := Outputs(inputs);
      dataSet, ok, k := [], true, 0;
      for i := 0 to |inputs|
        invariant AllValid(inputs) && |dataSet| == i
        invariant forall j :: 0 <= j < i ==> before[j] != [] && dataSet[j] == before[j][0]
        invariant forall j :: 0 <= j < i ==> inputs[j].Output() == before[j][1..]
        invariant forall j :: i <= j < |inputs| ==> inputs[j].Output() == before[j]
      {
        assert forall j :: 0 <= j < |inputs| && j != i ==> inputs[j] != inputs[i];
        var p := inputs[i].Next();
        if p.Exhausted? {
          return dataSet, false, i;
        }
        dataSet := dataSet + [p.value];
      }
      assert dataSet == Row(before, 0);
      assert Outputs(inputs) == Tails(before);
    }

    /** The first input to signal exhaustion ends the stream (the inputs
        before it have each lost an element). */
    method Next() returns (r: Pull<U>)
      requires Valid()
      modifies inputs
      ensures Valid() && Pulled(old(Output()), r, Output())
    {
      ghost var before := Outputs(inputs);
      var dataSet, ok, k := PullHeads();
      if !ok {
        ZipShortestExhausted(f, before, k);
        ZipShortestExhausted(f, Outputs(inputs), k);
        return Exhausted;
      }
      ZipShortestStep(f, before);
      return Some(f(dataSet));
    }
  }

  /** xunique: the first of every run of tying elements. */
  class UniqueStream<T(0)> {
    const buf: SingleBuffer<T>
    const cmp: (T, T) -> int

    ghost predicate Valid()
      reads this, buf, buf.src
    {
      buf.Valid()
    }

    ghost function Output(): seq<T>
      reads this, buf, buf.src
      requires Valid()
    {
      Unique(cmp, buf.Output())
    }

    constructor (s: seq<T>, comp: (T, T) -> int)
      ensures Valid() && fresh(buf) && fresh(buf.src) && cmp == comp
      ensures Output() == Unique(comp, s)
    {
      buf := new SingleBuffer(s);
      cmp := comp;
    }

    /** Consumes one element, then drops buffered elements while they tie
        with it; the first that does not stays in the buffer. */
    method Next() returns (r: Pull<T>)
      requires Valid()
      modifies buf, buf.src
      ensures Valid() && Pulled(old(Output()), r, Output())
    {
      r := buf.Consume();
      if r.Exhausted? {
        return;
      }
      var x := r.value;
      ghost var rest := SkipRun(cmp, x, buf.Output());
      while true
        invariant buf.Valid() && SkipRun(cmp, x, buf.Output()) == rest
        decreases |buf.Output()|
      {
        var y := buf.Get();
        if y.Exhausted? || cmp(x, y.value) != 0 {
          return;
        }
        var _ := buf.Next();
      }
    }
  }

  /** xhead: at most `bound` elements; the bound drops on every pull. */
  class HeadStream<T> {
    const input: Source<T>
    var bound: int

    ghost predicate Valid()
      reads this, input
    {
      input.Valid()
    }

    ghost function Output(): seq<T>
      reads this, input
      requires Valid()
    {
      Take(input.Output(), bound)
    }

    constructor (s: seq<T>, n: int)
      ensures Valid() && fresh(input) && bound == n && Output() == Take(s, n)
    {
      input := new Source(s);
      bound := n;
    }

    method Next() returns (r: Pull<T>)
      requires Valid()
      modifies this, input
      ensures Valid() && Pulled(old(Output()), r, Output())
      ensures bound == if old(bound) > 0 then old(bound) - 1 else old(bound)
    {
      if bound > 0 {
        bound := bound - 1;
        r := input.Next();
      } else {
        r := Exhausted;
      }
    }
  }

  /** xfill: exactly `bound` elements, the fill value standing in once the
      input is exhausted; a longer input is cut short. */
  class FillStream<T> {
    const input: Source<T>
    var bound: int
    const fill: T

    ghost predicate Valid()
      reads this, input
    {
      input.Valid()
    }

    ghost function Output(): seq<T>
      reads this, input
      requires Valid()
    {
      Fill(input.Output(), bound, fill)
    }

    constructor (s: seq<T>, n: int, filler: T)
      ensures Valid() && fresh(input) && bound == n && fill == filler
      ensures Output() == Fill(s, n, filler)
    {
      input := new Source(s);
      bound, fill := n, filler;
    }

    method Next() returns (r: Pull<T>)
      requires Valid()
      modifies this, input
      ensures Valid() && Pulled(old(Output()), r, Output())
      ensures bound == if old(bound) > 0 then old(bound) - 1 else old(bound)
    {
      if bound > 0 {
        bound := bound - 1;
        var p := input.Next();
        r := if p.Some? then p else Some(fill);
      } else {
        r := Exhausted;
      }
    }
  }

  /** xtail: skips `bound` elements on the first pull, then passes the
      rest through. */
  class TailStream<T> {
    const input: Source<T>
    var bound: int

    ghost predicate Valid()
      reads this, input
    {
      input.Valid()
    }

    ghost function Output(): seq<T>
      reads this, input
      requires Valid()
    {
      Drop(input.Output(), bound)
    }

    constructor (s: seq<T>, n: int)
      ensures Valid() && fresh(input) && bound == n && Output() == Drop(s, n)
    {
      input := new Source(s);
      bound := n;
    }

    method Next() returns (r: Pull<T>)
      requires Valid()
      modifies this, input
      ensures Valid() && Pulled(old(Output()), r, Output())
      ensures r.Some? ==> bound <= 0
    {
      while bound > 0
        invariant Valid() && Output() == old(Output())
        decreases bound
      {
        ghost var s := input.Output();
        bound := bound - 1;
        var p := input.Next();
        if p.Exhausted? {
          return Exhausted;
        }
        assert Drop(s, bound + 1) == Drop(s[1..], bound);
      }
      r := input.Next();
    }
  }
}
