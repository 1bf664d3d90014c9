/** `Sampler`: a QUBO sampler together with its read count. The sampler itself
    (simulated annealing or a quantum annealer) is an oracle: for a QUBO, a
    read count and the index of the call it yields the lowest-energy sample,
    one value per variable in variable order. */
module Sampling {
  import opened Matrices
  import opened Qubo
  import opened Tracking

  /** What `Sampler.compute` reports for the sample x of the QUBO q: x, its
      energy x^T q x (the energy of `BQM.from_qubo(q)` on a 0/1 vector) and
      `sum(x)`. */
  function Respond(q: Matrix, x: seq<int>): (r: Response)
    ensures r.x == x && r.cardinality == Cardinality(x)
    ensures r.value == QuadForm(q, AsReals(x))
  {
    Response(x, QuadForm(q, AsReals(x)), Cardinality(x))
  }

  /** For a 0/1 sample of the triangular k-sparsest-subgraph QUBO the report
      holds the number of chosen nodes and the penalised objective: the edges
      inside the chosen set plus the penalty of its size. */
  lemma {:induction false} RespondObjective(a: Matrix, l: real, mu: real, k: real, x: seq<int>)
    requires Square(a) && |x| == |a| && IsBinary(x)
    ensures 0 <= Respond(TriU(a, l, mu, k), x).cardinality <= |x|
    ensures Respond(TriU(a, l, mu, k), x).value
         == InnerEdges(a, AsReals(x)) + Penalty(l, mu, k, Cardinality(x) as real)
  {
    CardinalityBounds(x);
    TriUObjective(a, l, mu, k, x);
  }

  class Sampler {
    /** The underlying sampler: QUBO, `num_reads`, call index -> first sample. */
    const sample: (Matrix, int, nat) -> seq<int>
    var numReads: int
    /** How many times the sampler has been called. */
    var calls: nat

    constructor (sample: (Matrix, int, nat) -> seq<int>, numReads: int)
      ensures this.sample == sample && this.numReads == numReads && calls == 0
    {
      this.sample := sample;
      this.numReads := numReads;
      calls := 0;
    }

    /** `compute(Q)`: sample once with the current read count, copy the first
        sample into a zero vector entry by entry and report it. */
    method Compute(q: Matrix) returns (r: Response)
      modifies this
      ensures r == Respond(q, sample(q, old(numReads), old(calls)))
      ensures numReads == old(numReads) && calls == old(calls) + 1
    {
      var first := sample(q, numReads, calls);
      calls := calls + 1;
      var x := new int[|first|](_ => 0);
      for i := 0 to |first|
        modifies x
        invariant x[..i] == first[..i]
      {
        x[i] := first[i];
      }
      assert x[..] == first;
      r := Respond(q, x[..]);
    }

    /** `set_num_reads(num_reads)`. */
    method SetNumReads(numReads: int)
      modifies this
      ensures this.numReads == numReads && calls == old(calls)
    {
      this.numReads := numReads;
    }
  }
}
