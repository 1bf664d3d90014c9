/** Undirected simple graphs as networkx holds them: the nodes in insertion
    order and the adjacency relation stored in both directions; the subgraph
    induced by a node set, node removal, degrees and edge counts, the
    adjacency matrix of a graph whose nodes are 0..n-1, and
    `relabel_subgraph_nodes`. */
module Graphs {
  import opened Wrappers
  import opened Matrices

  datatype Graph<N(==)> = Graph(nodes: seq<N>, edges: set<(N, N)>)

  /** No element occurs twice. */
  predicate Distinct<N(==,!new)>(xs: seq<N>)
  {
    xs == [] || (Distinct(xs[..|xs| - 1]) && xs[|xs| - 1] !in xs[..|xs| - 1])
  }

  /** No node twice; every edge joins two distinct nodes and is stored both ways. */
  ghost predicate WellFormed<N(!new)>(g: Graph<N>)
  {
    && Distinct(g.nodes)
    && forall e :: e in g.edges ==> e.0 in g.nodes && e.1 in g.nodes && e.0 != e.1 && (e.1, e.0) in g.edges
  }

  /** The elements of xs that lie in s, in their order. */
  function Filter<N(==,!new)>(xs: seq<N>, s: set<N>): (r: seq<N>)
    ensures |r| <= |xs|
    ensures forall v :: v in r <==> v in xs && v in s
  {
    if xs == [] then []
    else Filter(xs[..|xs| - 1], s) + (if xs[|xs| - 1] in s then [xs[|xs| - 1]] else [])
  }

  /** The elements of xs other than v, in their order. */
  function Without<N(==,!new)>(xs: seq<N>, v: N): (r: seq<N>)
    ensures |r| <= |xs|
    ensures forall u :: u in r <==> u in xs && u != v
  {
    if xs == [] then []
    else Without(xs[..|xs| - 1], v) + (if xs[|xs| - 1] != v then [xs[|xs| - 1]] else [])
  }

  lemma {:induction false} FilterDistinct<N(!new)>(xs: seq<N>, s: set<N>)
    requires Distinct(xs)
    ensures Distinct(Filter(xs, s))
  {
    if xs != [] {
      var init, last := xs[..|xs| - 1], xs[|xs| - 1];
      FilterDistinct(init, s);
      var f := Filter(init, s);
      assert Distinct(init) && last !in init;
      if last in s {
        var r := f + [last];
        assert Filter(xs, s) == r;
        assert r[..|r| - 1] == f && r[|r| - 1] == last;
        assert last !in f;
      } else {
        assert Filter(xs, s) == f + [];
        assert f + [] == f;
      }
    }
  }

  /** Removing a node that occurs once shortens the sequence by one. */
  lemma {:induction false} WithoutOne<N(!new)>(xs: seq<N>, v: N)
    requires Distinct(xs) && v in xs
    ensures |Without(xs, v)| == |xs| - 1 && Distinct(Without(xs, v))
  {
    var init, last := xs[..|xs| - 1], xs[|xs| - 1];
    assert Distinct(init) && last !in init;
    if last == v {
      WithoutAbsent(init, v);
      assert Without(xs, v) == init + [];
      assert init + [] == init;
    } else {
      assert v in init;
      WithoutOne(init, v);
      var w := Without(init, v);
      var r := w + [last];
      assert Without(xs, v) == r;
      assert r[..|r| - 1] == w && r[|r| - 1] == last;
      assert last !in w;
    }
  }

  lemma {:induction false} WithoutAbsent<N(!new)>(xs: seq<N>, v: N)
    requires Distinct(xs) && v !in xs
    ensures Without(xs, v) == xs
  {
    if xs != [] {
      var init := xs[..|xs| - 1];
      WithoutAbsent(init, v);
      assert init + [xs[|xs| - 1]] == xs;
    }
  }

  function Neighbours<N(==,!new)>(g: Graph<N>, v: N): (r: set<N>)
    ensures forall u :: u in r <==> u in g.nodes && (v, u) in g.edges
  {
    set u | u in g.nodes && (v, u) in g.edges
  }

  function Degree<N(==,!new)>(g: Graph<N>, v: N): nat
  {
    |Neighbours(g, v)|
  }

  /** `number_of_edges()`: each undirected edge is stored twice. */
  function EdgeCount<N(==,!new)>(g: Graph<N>): nat
  {
    |g.edges| / 2
  }

  /** `nx.induced_subgraph(g, s)`: the nodes of g in s, in their order, and
      every edge of g between two of them; members of s that are not nodes of
      g are ignored. */
  function Induced<N(==,!new)>(g: Graph<N>, s: set<N>): (h: Graph<N>)
    ensures h.nodes == Filter(g.nodes, s)
    ensures forall e :: e in h.edges <==> e in g.edges && e.0 in s && e.1 in s
    ensures Distinct(g.nodes) ==> Distinct(h.nodes)
  {
    if Distinct(g.nodes) then
      FilterDistinct(g.nodes, s);
      Graph(Filter(g.nodes, s), set e | e in g.edges && e.0 in s && e.1 in s)
    else
      Graph(Filter(g.nodes, s), set e | e in g.edges && e.0 in s && e.1 in s)
  }

  /** `G.remove_node(v)`: v and the edges at v go. */
  function Remove<N(==,!new)>(g: Graph<N>, v: N): (h: Graph<N>)
    ensures h.nodes == Without(g.nodes, v)
    ensures forall e :: e in h.edges <==> e in g.edges && e.0 != v && e.1 != v
  {
    Graph(Without(g.nodes, v), set e | e in g.edges && e.0 != v && e.1 != v)
  }

  lemma {:induction false} InducedWellFormed<N(!new)>(g: Graph<N>, s: set<N>)
    requires WellFormed(g)
    ensures WellFormed(Induced(g, s))
  {
    FilterDistinct(g.nodes, s);
  }

  /** Removing a node keeps the graph well formed and leaves one node fewer. */
  lemma {:induction false} RemoveWellFormed<N(!new)>(g: Graph<N>, v: N)
    requires WellFormed(g) && v in g.nodes
    ensures WellFormed(Remove(g, v))
    ensures |Remove(g, v).nodes| == |g.nodes| - 1
  {
    WithoutOne(g.nodes, v);
  }

  /** The node set a 0/1 vector selects: `np.argwhere(x == 1)`. */
  function Selected(x: seq<int>): (s: set<int>)
    ensures forall i :: i in s <==> 0 <= i < |x| && x[i] == 1
  {
    set i | 0 <= i < |x| && x[i] == 1
  }

  /** The graph holds exactly the nodes 0..n-1 in order, the labelling
      `convert_node_labels_to_integers` produces. */
  ghost predicate Labelled(g: Graph<int>, n: nat)
  {
    WellFormed(g) && |g.nodes| == n && forall i :: 0 <= i < n ==> g.nodes[i] == i
  }

  /** `nx.adjacency_matrix(g).todense()` of a graph on 0..n-1: 1 where an edge
      is, 0 elsewhere. */
  function Adjacency(g: Graph<int>, n: nat): (a: Matrix)
    ensures IsSquare(a, n)
    ensures forall i, j :: 0 <= i < n && 0 <= j < n ==> a[i][j] == if (i, j) in g.edges then 1.0 else 0.0
  {
    seq(n, i requires 0 <= i < n => seq(n, j requires 0 <= j < n => if (i, j) in g.edges then 1.0 else 0.0))
  }

  /** The adjacency matrix of a well-formed graph is a symmetric 0/1 matrix
      with a zero diagonal. */
  lemma {:induction false} AdjacencySymmetric(g: Graph<int>, n: nat)
    requires Labelled(g, n)
    ensures Symmetric(Adjacency(g, n))
    ensures forall i :: 0 <= i < n ==> Adjacency(g, n)[i][i] == 0.0
  {
    var a := Adjacency(g, n);
    forall i, j | 0 <= i < n && 0 <= j < n
      ensures a[i][j] == a[j][i]
    {
      assert (i, j) in g.edges ==> (j, i) in g.edges;
      assert (j, i) in g.edges ==> (i, j) in g.edges;
    }
  }

  /** The first occurrence of each element of xs, in order: how networkx adds
      the same node twice. */
  function Dedup<N(==,!new)>(xs: seq<N>): (r: seq<N>)
    ensures Distinct(r)
    ensures forall v :: v in r <==> v in xs
  {
    if xs == [] then []
    else
      var init, last := xs[..|xs| - 1], xs[|xs| - 1];
      var d := Dedup(init);
      var r := if last in init then d else d + [last];
      assert r[..|r| - 1] == d || r == d;
      r
  }

  /** A sequence without repetitions is its own first occurrences. */
  lemma {:induction false} DedupDistinct<N(!new)>(xs: seq<N>)
    requires Distinct(xs)
    ensures Dedup(xs) == xs
  {
    if xs != [] {
      var init := xs[..|xs| - 1];
      DedupDistinct(init);
      assert xs == init + [xs[|xs| - 1]];
    }
  }

  /** Every node of xs sent through m. */
  function Mapped<N(==,!new), L(==,!new)>(xs: seq<N>, m: map<N, L>): (ys: seq<L>)
    requires forall i :: 0 <= i < |xs| ==> xs[i] in m
    ensures |ys| == |xs| && forall i :: 0 <= i < |xs| ==> ys[i] == m[xs[i]]
  {
    seq(|xs|, i requires 0 <= i < |xs| => m[xs[i]])
  }

  /** `relabel_subgraph_nodes(g, m)`: raises `KeyError` when a node of g has no
      entry in m; otherwise `nx.relabel_nodes(g, m)` on a copy, which adds the
      image of every node in order and the image of every edge. Nodes with
      the same image merge into the first one, and an edge between them
      becomes a self-loop. */
  function Relabel<N(==,!new), L(==,!new)>(g: Graph<N>, m: map<N, L>): (r: Result<Graph<L>>)
    ensures r.Failure? <==> exists i :: 0 <= i < |g.nodes| && g.nodes[i] !in m
    ensures r.Success? ==> Distinct(r.value.nodes)
    ensures r.Success? ==> forall v :: v in r.value.nodes <==> exists i :: 0 <= i < |g.nodes| && m[g.nodes[i]] == v
    ensures r.Success? ==> forall e :: e in r.value.edges <==>
      exists d :: d in g.edges && d.0 in m && d.1 in m && e == (m[d.0], m[d.1])
    ensures r.Success? && Distinct(Mapped(g.nodes, m)) ==>
      |r.value.nodes| == |g.nodes| && forall i :: 0 <= i < |g.nodes| ==> r.value.nodes[i] == m[g.nodes[i]]
  {
    if forall i :: 0 <= i < |g.nodes| ==> g.nodes[i] in m then
      var ys := Mapped(g.nodes, m);
      assert forall v :: v in ys <==> exists i :: 0 <= i < |g.nodes| && m[g.nodes[i]] == v by {
        forall v | v in ys ensures exists i :: 0 <= i < |g.nodes| && m[g.nodes[i]] == v {
          var i :| 0 <= i < |ys| && ys[i] == v;
        }
        forall i | 0 <= i < |g.nodes| ensures m[g.nodes[i]] in ys {
          assert ys[i] == m[g.nodes[i]];
        }
      }
      assert Distinct(ys) ==> Dedup(ys) == ys by {
        if Distinct(ys) {
          DedupDistinct(ys);
        }
      }
      Success(Graph(Dedup(ys), set e | e in g.edges && e.0 in m && e.1 in m :: (m[e.0], m[e.1])))
    else
      Failure("KeyError")
  }

  /** Two nodes joined by an edge and sent to the same label merge into one
      node with a self-loop, as `nx.relabel_nodes` does. */
  lemma {:induction false} RelabelMerges()
    ensures Relabel(Graph([1, 2], {(1, 2), (2, 1)}), map[1 := 0, 2 := 0]) == Success(Graph([0], {(0, 0)}))
  {
    var g := Graph([1, 2], {(1, 2), (2, 1)});
    var m := map[1 := 0, 2 := 0];
    var ys := Mapped(g.nodes, m);
    assert ys == [0, 0];
    DedupTwice();
    var r := Relabel(g, m).value;
    assert r.nodes == [0];
    assert (1, 2) in g.edges;
    assert r.edges == {(0, 0)};
  }

  lemma {:induction false} DedupTwice()
    ensures Dedup([0, 0]) == [0]
  {
    assert [0][..0] == [] && Dedup([0]) == [0];
    assert [0, 0][..1] == [0];
  }

  /** m is one-to-one on the nodes of g and back undoes it there. */
  ghost predicate Inverse<N(!new), L(!new)>(g: Graph<N>, m: map<N, L>, back: map<L, N>)
  {
    forall v :: v in g.nodes ==> v in m && m[v] in back && back[m[v]] == v
  }

  /** Relabelling with a one-to-one map and then with its inverse gives the
      graph back. */
  lemma {:induction false} RelabelRoundTrip<N(!new), L(!new)>(g: Graph<N>, m: map<N, L>, back: map<L, N>)
    requires WellFormed(g) && Inverse(g, m, back)
    ensures Relabel(g, m).Success?
    ensures Relabel(Relabel(g, m).value, back) == Success(g)
  {
    MapDistinct(g.nodes, Mapped(g.nodes, m), m, back);
    var h := Relabel(g, m).value;
    assert forall i :: 0 <= i < |h.nodes| ==> h.nodes[i] in back;
    assert Mapped(h.nodes, back) == g.nodes;
    var r := Relabel(h, back).value;
    assert r.nodes == g.nodes;
    assert r.edges == g.edges by {
      forall e | e in g.edges ensures e in r.edges {
        assert (m[e.0], m[e.1]) in h.edges;
      }
    }
  }

  /** The image of a sequence without repetitions under a map that is one-to-one
      on it has no repetitions. */
  lemma {:induction false} MapDistinct<N(!new), L(!new)>(xs: seq<N>, ys: seq<L>, m: map<N, L>, back: map<L, N>)
    requires Distinct(xs) && |ys| == |xs|
    requires forall i :: 0 <= i < |xs| ==> xs[i] in m && ys[i] == m[xs[i]] && ys[i] in back && back[ys[i]] == xs[i]
    ensures Distinct(ys)
  {
    if xs != [] {
      var n := |xs| - 1;
      MapDistinct(xs[..n], ys[..n], m, back);
      forall i | 0 <= i < n ensures ys[..n][i] != ys[n] {
        assert xs[..n][i] != xs[n];
      }
    }
  }

  /** A one-to-one relabelling keeps the graph well formed. */
  lemma {:induction false} RelabelWellFormed<N(!new), L(!new)>(g: Graph<N>, m: map<N, L>, back: map<L, N>)
    requires WellFormed(g) && Inverse(g, m, back)
    ensures Relabel(g, m).Success? && WellFormed(Relabel(g, m).value)
  {
    MapDistinct(g.nodes, Mapped(g.nodes, m), m, back);
    var h := Relabel(g, m).value;
    forall e | e in h.edges
      ensures e.0 in h.nodes && e.1 in h.nodes && e.0 != e.1 && (e.1, e.0) in h.edges
    {
      var d :| d in g.edges && d.0 in m && d.1 in m && e == (m[d.0], m[d.1]);
      var i, j :| 0 <= i < |g.nodes| && 0 <= j < |g.nodes| && g.nodes[i] == d.0 && g.nodes[j] == d.1;
      assert h.nodes[i] == e.0 && h.nodes[j] == e.1;
      assert (d.1, d.0) in g.edges;
    }
  }

  /** Two different positions of a sequence without repetitions hold
      different elements. */
  lemma {:induction false} DistinctIndex<N(!new)>(xs: seq<N>, i: int, j: int)
    requires Distinct(xs) && 0 <= i < |xs| && 0 <= j < |xs| && i != j
    ensures xs[i] != xs[j]
  {
    var n := |xs| - 1;
    var init := xs[..n];
    if i < n && j < n {
      DistinctIndex(init, i, j);
    } else if i < n {
      assert init[i] == xs[i];
    } else {
      assert init[j] == xs[j];
    }
  }

  /** The position of the first occurrence of v in xs. */
  function IndexOf<N(==,!new)>(xs: seq<N>, v: N): (i: nat)
    requires v in xs
    ensures i < |xs| && xs[i] == v
  {
    if xs[0] == v then 0 else 1 + IndexOf(xs[1..], v)
  }

  /** Each node of the sequence to its position. */
  function Positions<N(==,!new)>(xs: seq<N>): (m: map<N, int>)
    ensures forall v :: v in m <==> v in xs
  {
    map v | v in xs :: IndexOf(xs, v)
  }

  /** Each position to the node there: the `_original_labeling` attribute. */
  function Labels<N(==,!new)>(xs: seq<N>): (m: map<int, N>)
    ensures forall i :: i in m <==> 0 <= i < |xs|
  {
    map i | 0 <= i < |xs| :: xs[i]
  }

  /** `nx.convert_node_labels_to_integers(g, first_label=0,
      ordering='default')`: the node at position i becomes i. */
  function Convert<N(==,!new)>(g: Graph<N>): Graph<int>
  {
    assert forall i :: 0 <= i < |g.nodes| ==> g.nodes[i] in Positions(g.nodes);
    Relabel(g, Positions(g.nodes)).value
  }

  /** Positions and Labels undo each other on a sequence without repetitions. */
  lemma {:induction false} PositionsInverse<N(!new)>(g: Graph<N>)
    requires Distinct(g.nodes)
    ensures Inverse(g, Positions(g.nodes), Labels(g.nodes))
    ensures forall i :: 0 <= i < |g.nodes| ==> Positions(g.nodes)[g.nodes[i]] == i
  {
    var m := Positions(g.nodes);
    forall i | 0 <= i < |g.nodes| ensures m[g.nodes[i]] == i {
      var p := IndexOf(g.nodes, g.nodes[i]);
      if p != i {
        DistinctIndex(g.nodes, i, p);
      }
    }
  }

  /** The converted graph holds the nodes 0..n-1 in order and is well formed. */
  lemma {:induction false} ConvertLabelled<N(!new)>(g: Graph<N>)
    requires WellFormed(g)
    ensures Labelled(Convert(g), |g.nodes|)
  {
    PositionsInverse(g);
    RelabelWellFormed(g, Positions(g.nodes), Labels(g.nodes));
    MapDistinct(g.nodes, Mapped(g.nodes, Positions(g.nodes)), Positions(g.nodes), Labels(g.nodes));
  }

  /** Relabelling the converted graph with the stored original labels
      (`relabel_subgraph_nodes(g, labels)`) gives the input graph back. */
  lemma {:induction false} ConvertRoundTrip<N(!new)>(g: Graph<N>)
    requires WellFormed(g)
    ensures Relabel(Convert(g), Labels(g.nodes)) == Success(g)
  {
    PositionsInverse(g);
    RelabelRoundTrip(g, Positions(g.nodes), Labels(g.nodes));
  }

  /** On the nodes 0..m-1 a 0/1 vector selects as many nodes as it has ones
      among its first m entries. */
  lemma {:induction false} FilterSelected(xs: seq<int>, x: seq<int>)
    requires |xs| <= |x| && IsBinary(x)
    requires forall i :: 0 <= i < |xs| ==> xs[i] == i
    ensures |Filter(xs, Selected(x))| == Cardinality(x[..|xs|])
  {
    if xs != [] {
      var m := |xs| - 1;
      FilterSelected(xs[..m], x);
      assert x[..|xs|][..m] == x[..m];
      assert xs[m] == m && (x[m] == 0 || x[m] == 1);
    }
  }

  /** The subgraph a 0/1 vector over the nodes selects has as many nodes as
      the vector has ones. */
  lemma {:induction false} SelectedSize(g: Graph<int>, n: nat, x: seq<int>)
    requires Labelled(g, n) && |x| == n && IsBinary(x)
    ensures |Induced(g, Selected(x)).nodes| == Cardinality(x)
  {
    FilterSelected(g.nodes, x);
    assert x[..n] == x;
  }

  /** No edge of g joins two members of s. */
  ghost predicate Independent<N(!new)>(g: Graph<N>, s: set<N>)
  {
    forall e :: e in g.edges ==> !(e.0 in s && e.1 in s)
  }

  /** An independent set induces a subgraph without edges. */
  lemma {:induction false} IndependentInduced<N(!new)>(g: Graph<N>, s: set<N>)
    requires Independent(g, s)
    ensures Induced(g, s).edges == {}
  {
  }

  /** A well-formed graph stores every edge in both directions, so
      `number_of_edges() == 0` means there is no edge at all. */
  lemma {:induction false} NoEdges<N(!new)>(g: Graph<N>)
    requires WellFormed(g)
    ensures EdgeCount(g) == 0 <==> g.edges == {}
  {
    forall e | e in g.edges ensures |g.edges| >= 2 {
      var both := {e, (e.1, e.0)};
      var rest := g.edges - both;
      assert |both| == 2 && rest * both == {};
      assert g.edges == rest + both;
    }
  }
}
