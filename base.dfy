/** The pull protocol shared by every adapter (TBA/algorithms/xbase.py):
    a PyX input over a finite sequence, the one-element lookahead buffer
    xsingle_buffer, and the materialisation helper xresult. */
module Base {

  import opened BasicSpec

  /** The answer of one pull: an element, or the exhaustion signal that
      Python raises as StopIteration. */
  datatype Pull<T> = Some(value: T) | Exhausted

  /** One pull took `r` from a stream that still had `before` to produce
      and left `after`: the first element, or Exhausted on an empty stream
      that then stays empty. */
  ghost predicate Pulled<T>(before: seq<T>, r: Pull<T>, after: seq<T>) {
    if before == [] then r == Exhausted && after == []
    else r == Some(before[0]) && after == before[1..]
  }

  /** A pull that took an element from the front of a stream takes the
      same element from that stream followed by anything. */
  lemma PulledAppend<T>(before: seq<T>, r: Pull<T>, after: seq<T>, rest: seq<T>)
    requires Pulled(before, r, after) && r.Some?
    ensures Pulled(before + rest, r, after + rest)
  {
    assert (before + rest)[1..] == before[1..] + rest;
  }

  /** One pull from input `k`, the inputs before it being exhausted, is
      one pull from the concatenation; exhaustion of input `k` leaves the
      concatenation of the inputs after it. */
  lemma CatPulled<T>(before: seq<seq<T>>, after: seq<seq<T>>, k: nat, p: Pull<T>)
    requires k < |before| == |after| && after == before[k := after[k]]
    requires Pulled(before[k], p, after[k])
    ensures p.Some? ==> Pulled(Concat(before[k..]), p, Concat(after[k..]))
    ensures p.Exhausted? ==> Concat(after[k + 1..]) == Concat(before[k..])
  {
    ConcatFrom(before, k);
    ConcatFrom(after, k);
    assert after[k + 1..] == before[k + 1..];
    if p.Some? {
      assert (before[k] + Concat(before[k + 1..]))[1..] == before[k][1..] + Concat(before[k + 1..]);
    }
  }

  /** A look at `before` without taking anything. */
  ghost predicate Peeked<T>(before: seq<T>, r: Pull<T>) {
    if before == [] then r == Exhausted else r == Some(before[0])
  }

  /** A PyX input: an iterator over a finite sequence with a cursor. */
  class Source<T> {
    const items: seq<T>
    var pos: nat

    ghost predicate Valid()
      reads this
    {
      pos <= |items|
    }

    /** The elements not yet pulled. */
    ghost function Output(): seq<T>
      reads this
      requires Valid()
    {
      items[pos..]
    }

    constructor (s: seq<T>)
      ensures Valid() && Output() == s
    {
      items, pos := s, 0;
    }

    method Next() returns (r: Pull<T>)
      requires Valid()
      modifies this
      ensures Valid() && Pulled(old(Output()), r, Output())
      ensures r.Exhausted? ==> unchanged(this)
    {
      if pos < |items| {
        r := Some(items[pos]);
        pos := pos + 1;
      } else {
        r := Exhausted;
      }
    }
  }

  /** Several PyX inputs, each in a consistent state. */
  ghost predicate AllValid<T>(srcs: seq<Source<T>>)
    reads srcs
  {
    forall j :: 0 <= j < |srcs| ==> srcs[j].Valid()
  }

  /** No input is listed twice, so pulling one leaves the others alone. */
  ghost predicate Distinct<T>(srcs: seq<Source<T>>) {
    forall j, k :: 0 <= j < k < |srcs| ==> srcs[j] != srcs[k]
  }

  /** What each of several inputs still holds. */
  ghost function Outputs<T>(srcs: seq<Source<T>>): (r: seq<seq<T>>)
    reads srcs
    requires AllValid(srcs)
    ensures |r| == |srcs|
    ensures forall j :: 0 <= j < |srcs| ==> r[j] == srcs[j].Output()
  {
    seq(|srcs|, j requires 0 <= j < |srcs| && srcs[j].Valid() reads srcs => srcs[j].Output())
  }

  /** One pull from input `k` of several distinct inputs: that input
      loses its first element, or signals exhaustion, and no other input
      changes. */
  method PullOne<T>(srcs: seq<Source<T>>, k: nat) returns (p: Pull<T>)
    requires k < |srcs| && AllValid(srcs) && Distinct(srcs)
    modifies srcs[k]
    ensures AllValid(srcs)
    ensures Pulled(old(Outputs(srcs))[k], p, Outputs(srcs)[k])
    ensures Outputs(srcs) == old(Outputs(srcs))[k := Outputs(srcs)[k]]
  {
    ghost var before := Outputs(srcs);
    p := srcs[k].Next();
    assert forall j :: 0 <= j < |srcs| && j != k ==> srcs[j].Output() == before[j];
  }

  /** One fresh input per sequence, as `map(iter, inputs)` builds them. */
  method NewSources<T>(ins: seq<seq<T>>) returns (srcs: seq<Source<T>>)
    ensures |srcs| == |ins| && AllValid(srcs) && Distinct(srcs)
    ensures forall j :: 0 <= j < |srcs| ==> fresh(srcs[j])
    ensures Outputs(srcs) == ins
  {
    srcs := [];
    while |srcs| < |ins|
      invariant |srcs| <= |ins| && AllValid(srcs) && Distinct(srcs)
      invariant forall j :: 0 <= j < |srcs| ==> fresh(srcs[j]) && srcs[j].Output() == ins[j]
    {
      var s := new Source(ins[|srcs|]);
      srcs := srcs + [s];
    }
  }

  /** xsingle_buffer: a Source with a one-element buffer `val` that is
      meaningful while `valid` holds. */
  class SingleBuffer<T(0)> {
    const src: Source<T>
    var val: T
    var valid: bool

    ghost predicate Valid()
      reads this, src
    {
      src.Valid()
    }

    /** The buffered element (if any) followed by what the input still holds. */
    ghost function Output(): seq<T>
      reads this, src
      requires Valid()
    {
      if valid then [val] + src.Output() else src.Output()
    }

    /** After construction the buffer is empty. */
    constructor (input: seq<T>)
      ensures Valid() && fresh(src)
      ensures !valid && Output() == input
    {
      src := new Source(input);
      valid := false;
    }

    /** get(): fills the buffer if it is empty and returns it; a buffered
        element is returned again without touching the input, and a fill
        pulls exactly one element. */
    method Get() returns (r: Pull<T>)
      requires Valid()
      modifies this, src
      ensures Valid() && Output() == old(Output())
      ensures Peeked(old(Output()), r)
      ensures r.Some? <==> valid
      ensures old(valid) || r.Exhausted? ==> unchanged(this, src)
      ensures src.pos <= old(src.pos) + 1
    {
      if !valid {
        var p := src.Next();
        if p.Some? {
          val, valid := p.value, true;
        }
      }
      if valid {
        r := Some(val);
      } else {
        r := Exhausted;
      }
    }

    /** next(): only clears the flag; it never pulls and returns the
        buffer itself. */
    method Next() returns (self: SingleBuffer<T>)
      requires Valid()
      modifies this
      ensures Valid() && self == this && !valid
      ensures Output() == if old(valid) then old(Output())[1..] else old(Output())
      ensures val == old(val)
    {
      valid := false;
      self := this;
    }

    /** The truth test: true exactly when get() would succeed; testing
        keeps what it buffered. */
    method HasValue() returns (b: bool)
      requires Valid()
      modifies this, src
      ensures Valid() && Output() == old(Output())
      ensures b <==> old(Output()) != []
      ensures b <==> valid
    {
      var r := Get();
      b := r.Some?;
    }

    /** consume(): get() followed by next(); when get() signals exhaustion
        next() is not called and nothing changes. */
    method Consume() returns (r: Pull<T>)
      requires Valid()
      modifies this, src
      ensures Valid() && Pulled(old(Output()), r, Output())
      ensures r.Some? ==> !valid
      ensures r.Exhausted? ==> unchanged(this, src)
      ensures src.pos <= old(src.pos) + 1
    {
      r := Get();
      if r.Some? {
        var _ := Next();
      }
    }
  }

  /** One stretch of the documented walk: test, get, test, next on a buffer
      whose stream starts with `x`. */
  method TestGetNext<T(0)>(b: SingleBuffer<T>, x: T, rest: seq<T>) returns (t0: bool, g: Pull<T>, t1: bool)
    requires b.Valid() && b.Output() == [x] + rest
    modifies b, b.src
    ensures b.Valid() && b.Output() == rest
    ensures t0 && g == Some(x) && t1
  {
    t0 := b.HasValue();
    g := b.Get();
    t1 := b.HasValue();
    var _ := b.Next();
    assert ([x] + rest)[1..] == rest;
  }

  /** The documented walk over [1, 2, 3] (xbase.py, class docstring): the
      truth tests, get() and next() calls in the order shown there, ending
      with two get() calls that both signal exhaustion. */
  method BufferWalkthrough() returns (gets: seq<Pull<int>>, truths: seq<bool>)
    ensures gets == [Some(1), Some(2), Some(2), Some(3), Exhausted, Exhausted]
    ensures truths == [true, true, true, true, true, true, false, false]
  {
    var b := new SingleBuffer([1, 2, 3]);
    var t0, g0, t1 := TestGetNext(b, 1, [2, 3]);
    var t2 := b.HasValue();
    var g1 := b.Get();
    var g2 := b.Get();
    var t3 := b.HasValue();
    var _ := b.Next();
    assert [2, 3][1..] == [3];
    var t4, g3, t5 := TestGetNext(b, 3, []);
    var t6 := b.HasValue();
    var g4 := b.Get();
    var t7 := b.HasValue();
    var g5 := b.Get();
    gets := [g0, g1, g2, g3, g4, g5];
    truths := [t0, t1, t2, t3, t4, t5, t6, t7];
  }

  /** xresult(input): every element of the input, in order. */
  method Collect<T>(input: Source<T>) returns (r: seq<T>)
    requires input.Valid()
    modifies input
    ensures input.Valid() && input.Output() == []
    ensures r == old(input.Output())
  {
    r := [];
    while true
      invariant input.Valid()
      invariant r + input.Output() == old(input.Output())
      decreases |input.Output()|
    {
      var p := input.Next();
      if p.Exhausted? {
        return;
      }
      r := r + [p.value];
    }
  }

  /** xresult(input, start) for a list or tuple start: `start` followed by
      every element of the input, each appended as one element. */
  method CollectOnto<T>(start: seq<T>, input: Source<T>) returns (r: seq<T>)
    requires input.Valid()
    modifies input
    ensures input.Valid() && input.Output() == []
    ensures r == start + old(input.Output())
  {
    r := start;
    while true
      invariant input.Valid()
      invariant r + input.Output() == start + old(input.Output())
      decreases |input.Output()|
    {
      var p := input.Next();
      if p.Exhausted? {
        return;
      }
      r := r + [p.value];
    }
  }

  /** xresult(input, start) for a string start: each element is a string
      and is concatenated onto `start`. */
  method CollectString(start: string, input: Source<string>) returns (r: string)
    requires input.Valid()
    modifies input
    ensures input.Valid() && input.Output() == []
    ensures r == start + Concat(old(input.Output()))
  {
    r := start;
    while true
      invariant input.Valid()
      invariant r + Concat(input.Output()) == start + Concat(old(input.Output()))
      decreases |input.Output()|
    {
      ghost var before := input.Output();
      var p := input.Next();
      if p.Exhausted? {
        return;
      }
      assert Concat(before) == p.value + Concat(input.Output());
      r := r + p.value;
    }
  }
}
