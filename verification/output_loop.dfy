/** The `foreach` over `InferRequest.Outputs` that the Yolo and ATSS
    detectors share: each output is decoded into an accumulator inside a
    `try` and released in the `finally`, so an output that throws is still
    released, and the exception ends the loop. */
module OutputLoop {
  import opened Faults
  import opened Tensors

  /** The accumulator after the outputs, and how many outputs were released. */
  datatype Collected<A> = Collected(result: Result<A>, released: nat)

  /** The loop over `outputs` from `init`, with `step` decoding one output. */
  function Collect<A>(outputs: seq<Tensor>, init: A, step: (A, Tensor) -> Result<A>): (c: Collected<A>)
    ensures c.released <= |outputs|
    ensures c.result.Ok? ==> c.released == |outputs|
    decreases |outputs|
  {
    if |outputs| == 0 then Collected(Ok(init), 0)
    else
      var prev := Collect(outputs[..|outputs| - 1], init, step);
      if prev.result.Err? then prev
      else Collected(step(prev.result.value, outputs[|outputs| - 1]), |outputs|)
  }

  /** A fault comes from the last output released, and every output before
      it decoded without one. */
  lemma {:induction false} CollectStopsAtFault<A>(outputs: seq<Tensor>, init: A, step: (A, Tensor) -> Result<A>)
    ensures var c := Collect(outputs, init, step);
      c.result.Err? ==>
        && 1 <= c.released
        && var prev := Collect(outputs[..c.released - 1], init, step);
           prev.result.Ok? && step(prev.result.value, outputs[c.released - 1]) == c.result
    decreases |outputs|
  {
    if |outputs| > 0 {
      var n := |outputs| - 1;
      var prev := Collect(outputs[..n], init, step);
      if prev.result.Err? {
        CollectStopsAtFault(outputs[..n], init, step);
        assert outputs[..n][..prev.released - 1] == outputs[..prev.released - 1];
        assert outputs[..n][prev.released - 1] == outputs[prev.released - 1];
      }
    }
  }

  /** Once an output has faulted, the later ones change nothing. */
  lemma {:induction false} CollectAfterFault<A>(outputs: seq<Tensor>, init: A, step: (A, Tensor) -> Result<A>, n: nat)
    requires n <= |outputs| && Collect(outputs[..n], init, step).result.Err?
    ensures Collect(outputs, init, step) == Collect(outputs[..n], init, step)
    decreases |outputs| - n
  {
    if n < |outputs| {
      var m := |outputs| - 1;
      assert outputs[..m][..n] == outputs[..n];
      CollectAfterFault(outputs[..m], init, step, n);
    } else {
      assert outputs[..n] == outputs;
    }
  }

  /** The loop after one more output that decodes: the step applied to the
      accumulator so far. */
  lemma CollectSnoc<A>(outputs: seq<Tensor>, init: A, step: (A, Tensor) -> Result<A>, k: nat, acc: A)
    requires k < |outputs| && Collect(outputs[..k], init, step) == Collected(Ok(acc), k)
    ensures Collect(outputs[..k + 1], init, step) == Collected(step(acc, outputs[k]), k + 1)
  {
    assert outputs[..k + 1][..k] == outputs[..k];
  }
}
