/** `greedy(g, k)`: remove a node of maximal (degree, label) from a copy of
    the graph until k nodes remain, then report the largest remaining degree
    and `number_of_edges / number_of_nodes / 2`. */
module Greedy {
  import opened Wrappers
  import opened Graphs

  /** (degree of u, u) is at least (degree of v, v): `sorted(((d, n) ...),
      reverse=True)` puts u first. */
  predicate AtLeast(g: Graph<int>, u: int, v: int)
  {
    Degree(g, u) > Degree(g, v) || (Degree(g, u) == Degree(g, v) && u >= v)
  }

  /** v heads the degree sequence of g. */
  ghost predicate IsHeaviest(g: Graph<int>, v: int)
  {
    v in g.nodes && forall u :: u in g.nodes ==> AtLeast(g, v, u)
  }

  /** The element of xs that is at least every element of xs (HighestIsMax). */
  function HighestOf(g: Graph<int>, xs: seq<int>): (v: int)
    requires |xs| > 0
    ensures v in xs
  {
    var last := xs[|xs| - 1];
    if |xs| == 1 then last
    else
      var w := HighestOf(g, xs[..|xs| - 1]);
      if AtLeast(g, last, w) then last else w
  }

  lemma {:induction false} HighestIsMax(g: Graph<int>, xs: seq<int>)
    requires |xs| > 0
    ensures forall u :: u in xs ==> AtLeast(g, HighestOf(g, xs), u)
  {
    if |xs| > 1 {
      var init := xs[..|xs| - 1];
      HighestIsMax(g, init);
      assert forall u :: u in xs ==> u == xs[|xs| - 1] || u in init;
    }
  }

  /** Distinct labels make the head of the degree sequence unique. */
  lemma {:induction false} HeaviestUnique(g: Graph<int>, v: int, w: int)
    requires IsHeaviest(g, v) && IsHeaviest(g, w)
    ensures v == w
  {
    assert AtLeast(g, v, w) && AtLeast(g, w, v);
  }

  /** `sorted(((d, n) for n, d in G.degree()), reverse=True)[0]`: the node of
      largest degree, the largest label among those (HeaviestIsHeaviest). */
  function Heaviest(g: Graph<int>): (v: int)
    requires |g.nodes| > 0
    ensures v in g.nodes
  {
    HighestOf(g, g.nodes)
  }

  /** The node `Heaviest` picks heads the degree sequence, and it is the only
      node that does. */
  lemma {:induction false} HeaviestIsHeaviest(g: Graph<int>)
    requires |g.nodes| > 0
    ensures IsHeaviest(g, Heaviest(g))
    ensures forall v :: IsHeaviest(g, v) ==> v == Heaviest(g)
  {
    HighestIsMax(g, g.nodes);
    forall v | IsHeaviest(g, v) ensures v == Heaviest(g) {
      HeaviestUnique(g, v, Heaviest(g));
    }
  }

  /** The graph left after m rounds of the removal loop: each round removes
      the heaviest node of what the previous rounds left. */
  function Trim(g: Graph<int>, m: nat): (t: Graph<int>)
    requires m <= |g.nodes| && Distinct(g.nodes)
    ensures |t.nodes| == |g.nodes| - m && Distinct(t.nodes)
  {
    if m == 0 then g
    else
      var t := Trim(g, m - 1);
      WithoutOne(t.nodes, Heaviest(t));
      Remove(t, Heaviest(t))
  }

  /** Every round keeps the graph well formed. */
  lemma {:induction false} TrimWellFormed(g: Graph<int>, m: nat)
    requires m <= |g.nodes| && WellFormed(g)
    ensures WellFormed(Trim(g, m))
  {
    if m > 0 {
      TrimWellFormed(g, m - 1);
      RemoveWellFormed(Trim(g, m - 1), Heaviest(Trim(g, m - 1)));
    }
  }

  /** t is the subgraph of g induced by the nodes of t. */
  ghost predicate InducedBy(t: Graph<int>, g: Graph<int>)
  {
    && (forall v :: v in t.nodes ==> v in g.nodes)
    && (forall e :: e in t.edges <==> e in g.edges && e.0 in t.nodes && e.1 in t.nodes)
  }

  /** Removing a node from an induced subgraph leaves an induced subgraph. */
  lemma {:induction false} RemoveInducedBy(t: Graph<int>, g: Graph<int>, v: int)
    requires InducedBy(t, g)
    ensures InducedBy(Remove(t, v), g)
  {
    var r := Remove(t, v);
    forall e ensures e in r.edges <==> e in g.edges && e.0 in r.nodes && e.1 in r.nodes {
      assert e.0 in r.nodes <==> e.0 in t.nodes && e.0 != v;
      assert e.1 in r.nodes <==> e.1 in t.nodes && e.1 != v;
    }
  }

  /** Trimming leaves the subgraph of the input induced by the remaining
      nodes: every remaining node is a node of g and every edge of g between
      two remaining nodes is kept. */
  lemma {:induction false} TrimInduced(g: Graph<int>, m: nat)
    requires m <= |g.nodes| && WellFormed(g)
    ensures InducedBy(Trim(g, m), g)
  {
    if m > 0 {
      TrimInduced(g, m - 1);
      var t := Trim(g, m - 1);
      RemoveInducedBy(t, g, Heaviest(t));
    }
  }

  /** The head of the degree sequence has the maximum degree. */
  lemma {:induction false} MaximumDegree(g: Graph<int>)
    requires |g.nodes| > 0
    ensures forall u :: u in g.nodes ==> Degree(g, u) <= Degree(g, Heaviest(g))
  {
    var v := Heaviest(g);
    HeaviestIsHeaviest(g);
    forall u | u in g.nodes ensures Degree(g, u) <= Degree(g, v) {
      assert AtLeast(g, v, u);
    }
  }

  datatype Trimmed = Trimmed(g: Graph<int>, dmax: nat, davg: real)

  /** How many rounds `for i in range(n - k)` runs. */
  function Rounds(n: nat, k: int): nat
  {
    if n > k then n - k else 0
  }

  /** One round: `G.remove_node` of the node heading the degree sequence. */
  method RemoveNode(g: Graph<int>, i: nat, t: Graph<int>) returns (u: Graph<int>)
    requires i < |g.nodes| && Distinct(g.nodes) && t == Trim(g, i)
    ensures u == Trim(g, i + 1)
  {
    u := Remove(t, Heaviest(t));
  }

  /** The removal loop of `greedy`, `for i in range(rounds)`, for as many
      rounds as there are nodes at most. */
  method RemoveHeaviest(g: Graph<int>, rounds: nat) returns (t: Graph<int>)
    requires Distinct(g.nodes) && rounds <= |g.nodes|
    ensures t == Trim(g, rounds)
  {
    t := g;
    var i := 0;
    while i < rounds
      invariant 0 <= i <= rounds
      invariant t == Trim(g, i)
    {
      t := RemoveNode(g, i, t);
      i := i + 1;
    }
  }

  /** `greedy(g, k)`. It raises `IndexError` (`degree_sequence[0]` of an empty
      graph) exactly when k <= 0 or g has no nodes; otherwise it removes
      max(0, n - k) heaviest nodes one at a time and returns the trimmed copy,
      which has min(n, k) nodes, its maximum degree and
      `number_of_edges / number_of_nodes / 2`. */
  method Greedy(g: Graph<int>, k: int) returns (r: Result<Trimmed>)
    requires WellFormed(g)
    ensures r.Failure? <==> k <= 0 || |g.nodes| == 0
    ensures r.Success? ==> Rounds(|g.nodes|, k) <= |g.nodes| && r.value.g == Trim(g, Rounds(|g.nodes|, k))
    ensures r.Success? ==> |r.value.g.nodes| == (if |g.nodes| < k then |g.nodes| else k)
    ensures r.Success? ==> |r.value.g.nodes| > 0 && r.value.dmax == Degree(r.value.g, Heaviest(r.value.g))
    ensures r.Success? ==> forall u :: u in r.value.g.nodes ==> Degree(r.value.g, u) <= r.value.dmax
    ensures r.Success? ==> r.value.davg == EdgeCount(r.value.g) as real / |r.value.g.nodes| as real / 2.0
  {
    if Rounds(|g.nodes|, k) > |g.nodes| {
      // Round |g.nodes| of the loop finds the graph empty.
      return Failure("IndexError");
    }
    var G := RemoveHeaviest(g, Rounds(|g.nodes|, k));
    if |G.nodes| == 0 {
      return Failure("IndexError");
    }
    MaximumDegree(G);
    r := Success(Trimmed(G, Degree(G, Heaviest(G)), EdgeCount(G) as real / |G.nodes| as real / 2.0));
  }
}
