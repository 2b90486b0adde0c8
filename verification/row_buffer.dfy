/** Detection heads whose output is a flat buffer of fixed-width rows: row
    `i` starts at `i * stride`, and decoding it reads its fields `0` up to
    some last field. A read past the end of the buffer throws. */
module RowBuffer {
  import opened Faults
  import opened Tensors
  import opened DetectionResult

  /** Field `field` of row `row` when rows are `stride` floats apart. */
  function FieldOffset(stride: nat, row: nat, field: nat): nat
  {
    row * stride + field
  }

  /** Every read of the first `n` rows, up to field `last`, is inside the
      buffer; the last row's last field decides. */
  predicate RowsFit(data: seq<real>, stride: nat, n: nat, last: nat)
  {
    n == 0 || FieldOffset(stride, n - 1, last) < |data|
  }

  /** Earlier rows lie before the last one. */
  lemma RowsFitEach(data: seq<real>, stride: nat, n: nat, last: nat)
    requires RowsFit(data, stride, n, last)
    ensures forall i: nat :: i < n ==> FieldOffset(stride, i, last) < |data|
  {
    forall i: nat | i < n
      ensures FieldOffset(stride, i, last) < |data|
    {
      MulMonotone(i, n - 1, stride);
    }
  }

  /** The fields `0 ..= last` of one row. */
  function RowFields(data: seq<real>, stride: nat, row: nat, last: nat): (fields: seq<real>)
    requires FieldOffset(stride, row, last) < |data|
    ensures |fields| == last + 1
    ensures forall f :: 0 <= f <= last ==> fields[f] == data[FieldOffset(stride, row, f)]
  {
    data[row * stride..row * stride + last + 1]
  }

  /** The detections of the first `n` rows, in row order. */
  function Rows(n: nat, decode: nat -> Detection): (r: seq<Detection>)
    ensures |r| == n && forall i :: 0 <= i < n ==> r[i] == decode(i)
  {
    seq(n, i requires 0 <= i < n => decode(i))
  }

  /** The row loop, for any way of decoding one row: reads row after row and
      stops with a fault at the first row whose last field runs past the
      buffer. */
  method ReadRows(data: seq<real>, stride: nat, n: nat, last: nat, decode: nat -> Detection)
    returns (r: Result<seq<Detection>>)
    ensures r == if RowsFit(data, stride, n, last) then Ok(Rows(n, decode)) else Err(IndexOutOfRange)
  {
    var results: seq<Detection> := [];
    for i := 0 to n
      invariant |results| == i
      invariant i > 0 ==> FieldOffset(stride, i - 1, last) < |data|
      invariant forall k :: 0 <= k < i ==> results[k] == decode(k)
    {
      if FieldOffset(stride, i, last) >= |data| {
        MulMonotone(i, n - 1, stride);
        return Err(IndexOutOfRange);
      }
      results := results + [decode(i)];
    }
    assert RowsFit(data, stride, n, last);
    assert results == Rows(n, decode);
    r := Ok(results);
  }
}
