/** The inference engine's output tensors, seen as a flat buffer of floats and
    a shape (the per-axis extents, never negative). */
module Tensors {

  datatype Tensor = Tensor(data: seq<real>, shape: seq<nat>) {
    /** `Tensor.Size`: the number of elements of the buffer. */
    function Size(): nat { |data| }

    /** `Shape.Rank`: the number of axes. */
    function Rank(): nat { |shape| }
  }

  function Product(dims: seq<nat>): nat
  {
    if |dims| == 0 then 1 else dims[0] * Product(dims[1..])
  }

  /** A buffer whose length matches its shape, as the engine hands it out. */
  predicate WellFormed(t: Tensor)
  {
    |t.data| == Product(t.shape)
  }

  /** A buffer that holds at least one element spans every axis with an
      extent of at least one, so it holds at least as many elements as its
      first two axes describe. */
  lemma {:induction false} ProductCoversLeadingAxes(dims: seq<nat>)
    requires |dims| >= 2 && Product(dims) > 0
    ensures Product(dims) >= dims[0] * dims[1]
  {
    var tail := dims[2..];
    assert dims[1..][1..] == tail;
    ProductOfTailPositive(dims);
    ProductOfTailPositive(dims[1..]);
    assert Product(tail) >= 1;
    assert Product(dims[1..]) == dims[1] * Product(tail);
    assert Product(dims[1..]) >= dims[1];
    MulMonotone(dims[1], Product(dims[1..]), dims[0]);
  }

  /** The element count of a rank-2 shape. */
  lemma ProductOfTwo(dims: seq<nat>)
    requires |dims| == 2
    ensures Product(dims) == dims[0] * dims[1]
  {
    assert dims[1..][1..] == [];
    assert Product(dims[1..]) == dims[1..][0] * Product(dims[1..][1..]);
  }

  /** The element count of a rank-4 shape. */
  lemma ProductOfFour(dims: seq<nat>)
    requires |dims| == 4
    ensures Product(dims) == dims[0] * (dims[1] * (dims[2] * dims[3]))
  {
    assert dims[3..][1..] == [];
    assert dims[2..][1..] == dims[3..];
    assert dims[1..][1..] == dims[2..];
    var p3 := Product(dims[3..]);
    assert Product(dims[3..][1..]) == 1;
    assert p3 == dims[3..][0] * 1;
    assert p3 == dims[3];
    var p2 := Product(dims[2..]);
    assert p2 == dims[2] * p3;
    var p1 := Product(dims[1..]);
    assert p1 == dims[1] * p2;
    assert Product(dims) == dims[0] * p1;
  }

  lemma ProductOfTailPositive(dims: seq<nat>)
    requires |dims| >= 1 && Product(dims) > 0
    ensures Product(dims[1..]) > 0
  {
  }

  lemma MulMonotone(a: nat, b: nat, c: nat)
    requires a <= b
    ensures c * a <= c * b
  {
  }
}
